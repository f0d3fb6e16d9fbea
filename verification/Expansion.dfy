// When a set of plain productions stands for an extended grammar, and why the two
// have the same words.
module Expansion {
  import opened Wrappers
  import opened Grammars
  import opened ParseTrees
  import opened Ebnf

  // What the loader has built so far. texts gives the spelling of every terminal and
  // meaning the expression every nonterminal stands for.
  datatype Snapshot = Snapshot(productions: seq<Production>, texts: map<nat, string>, meaning: map<nat, Item>)

  predicate Named(s: Snapshot, x: Symbol) {
    match x
    case Terminal(t) => t in s.texts
    case NonTerminal(n) => n in s.meaning
  }

  function Meaning(s: Snapshot, x: Symbol): Item
    requires Named(s, x)
  {
    match x
    case Terminal(t) => Text(s.texts[t])
    case NonTerminal(n) => s.meaning[n]
  }

  ghost predicate Means(s: Snapshot, body: seq<Symbol>, items: seq<Item>) {
    && |body| == |items|
    && forall i :: 0 <= i < |body| ==> Named(s, body[i]) && Meaning(s, body[i]) == items[i]
  }

  // The nonterminal head may have this body, judged by the expression it stands for.
  ghost predicate Justified(rules: seq<Rule>, s: Snapshot, head: nat, body: seq<Symbol>) {
    && head in s.meaning
    && match s.meaning[head]
       case Name(x) => exists r, j :: 0 <= r < |rules| && rules[r].head == x && 0 <= j < |rules[r].alts| && Means(s, body, rules[r].alts[j].items)
       case Text(_) => false
       case Group(alts) => exists j :: 0 <= j < |alts| && Means(s, body, alts[j].items)
       case Optional(alts) => body == [Terminal(EPSILON)] || exists j :: 0 <= j < |alts| && Means(s, body, alts[j].items)
       case Repeat(alts) => body == [Terminal(EPSILON)] || RepeatBody(s, head, body, alts)
  }

  // The body of the recursive production for { alts }.
  ghost predicate RepeatBody(s: Snapshot, head: nat, body: seq<Symbol>, alts: seq<Branch>) {
    && |body| == 2 && body[1] == NonTerminal(head)
    && body[0].NonTerminal? && body[0].n in s.meaning && s.meaning[body[0].n] == Group(alts)
  }

  ghost predicate HasBody(s: Snapshot, head: nat, items: seq<Item>) {
    exists k :: 0 <= k < |s.productions| && s.productions[k].head == head && Means(s, s.productions[k].body, items)
  }

  ghost predicate HasAll(s: Snapshot, head: nat, alts: seq<Branch>) {
    forall j :: 0 <= j < |alts| ==> HasBody(s, head, alts[j].items)
  }

  ghost predicate HasEpsilon(s: Snapshot, head: nat) {
    Production(head, [Terminal(EPSILON)]) in s.productions
  }

  ghost predicate HasRecursion(s: Snapshot, head: nat, alts: seq<Branch>) {
    exists k :: 0 <= k < |s.productions| && s.productions[k].head == head && RepeatBody(s, head, s.productions[k].body, alts)
  }

  // Every way of matching the expression of a generated nonterminal has a production.
  ghost predicate Complete(s: Snapshot, n: nat)
    requires n in s.meaning
  {
    match s.meaning[n]
    case Name(_) => true
    case Text(_) => false
    case Group(alts) => HasAll(s, n, alts)
    case Optional(alts) => HasAll(s, n, alts) && HasEpsilon(s, n)
    case Repeat(alts) => HasEpsilon(s, n) && HasRecursion(s, n, alts)
  }

  ghost predicate TextsDistinct(s: Snapshot) {
    && EPSILON in s.texts && s.texts[EPSILON] == EPSILON_NAME
    && forall t, u :: t in s.texts && u in s.texts && s.texts[t] == s.texts[u] ==> t == u
  }

  ghost predicate RulesDone(rules: seq<Rule>, s: Snapshot) {
    forall r, n :: 0 <= r < |rules| && n in s.meaning && s.meaning[n] == Name(rules[r].head) ==> HasAll(s, n, rules[r].alts)
  }

  ghost predicate AllJustified(rules: seq<Rule>, s: Snapshot) {
    forall k :: 0 <= k < |s.productions| ==> Justified(rules, s, s.productions[k].head, s.productions[k].body)
  }

  // The productions say neither more nor less than the rules.
  ghost predicate Expands(rules: seq<Rule>, s: Snapshot) {
    AllJustified(rules, s) && Covers(rules, s)
  }

  ghost predicate Covers(rules: seq<Rule>, s: Snapshot) {
    && TextsDistinct(s)
    && (forall n :: n in s.meaning ==> Complete(s, n))
    && RulesDone(rules, s)
  }

  // ---------- later snapshots ----------

  ghost predicate Extends(s: Snapshot, t: Snapshot) {
    && s.productions <= t.productions
    && (forall u :: u in s.texts ==> u in t.texts && t.texts[u] == s.texts[u])
    && (forall n :: n in s.meaning ==> n in t.meaning && t.meaning[n] == s.meaning[n])
  }

  lemma {:induction false} ExtendsTransitive(s: Snapshot, t: Snapshot, u: Snapshot)
    requires Extends(s, t) && Extends(t, u)
    ensures Extends(s, u)
  {
  }

  lemma {:induction false} MeansLater(s: Snapshot, t: Snapshot, body: seq<Symbol>, items: seq<Item>)
    requires Extends(s, t) && Means(s, body, items)
    ensures Means(t, body, items)
  {
    forall i | 0 <= i < |body| ensures Named(t, body[i]) && Meaning(t, body[i]) == items[i] {
      assert Named(s, body[i]);
    }
  }

  lemma {:induction false} JustifiedLater(rules: seq<Rule>, s: Snapshot, t: Snapshot, head: nat, body: seq<Symbol>)
    requires Extends(s, t) && Justified(rules, s, head, body)
    ensures Justified(rules, t, head, body)
  {
    forall items | Means(s, body, items) ensures Means(t, body, items) {
      MeansLater(s, t, body, items);
    }
  }

  lemma {:induction false} HasBodyLater(s: Snapshot, t: Snapshot, head: nat, items: seq<Item>)
    requires Extends(s, t) && HasBody(s, head, items)
    ensures HasBody(t, head, items)
  {
    var k :| 0 <= k < |s.productions| && s.productions[k].head == head && Means(s, s.productions[k].body, items);
    MeansLater(s, t, s.productions[k].body, items);
    assert t.productions[k] == s.productions[k];
  }

  lemma {:induction false} HasAllLater(s: Snapshot, t: Snapshot, head: nat, alts: seq<Branch>)
    requires Extends(s, t) && HasAll(s, head, alts)
    ensures HasAll(t, head, alts)
  {
    forall j | 0 <= j < |alts| ensures HasBody(t, head, alts[j].items) {
      HasBodyLater(s, t, head, alts[j].items);
    }
  }

  lemma {:induction false} CompleteLater(s: Snapshot, t: Snapshot, n: nat)
    requires Extends(s, t) && n in s.meaning && Complete(s, n)
    ensures Complete(t, n)
  {
    match s.meaning[n] {
      case Name(_) =>
      case Group(alts) => HasAllLater(s, t, n, alts);
      case Optional(alts) => HasAllLater(s, t, n, alts);
      case Repeat(alts) =>
        var k :| 0 <= k < |s.productions| && s.productions[k].head == n && RepeatBody(s, n, s.productions[k].body, alts);
        assert t.productions[k] == s.productions[k];
    }
  }

  lemma {:induction false} AllJustifiedLater(rules: seq<Rule>, s: Snapshot, t: Snapshot)
    requires Extends(s, t) && t.productions == s.productions && AllJustified(rules, s)
    ensures AllJustified(rules, t)
  {
    forall k | 0 <= k < |t.productions| ensures Justified(rules, t, t.productions[k].head, t.productions[k].body) {
      JustifiedLater(rules, s, t, s.productions[k].head, s.productions[k].body);
    }
  }

  // t grows out of s, and every nonterminal entered on the way is finished.
  ghost predicate Completes(s: Snapshot, t: Snapshot) {
    Extends(s, t) && forall n :: n in t.meaning && n !in s.meaning ==> Complete(t, n)
  }

  lemma {:induction false} CompletesSelf(s: Snapshot)
    ensures Extends(s, s) && Completes(s, s)
  {
  }

  lemma {:induction false} CompletesThen(s: Snapshot, t: Snapshot, u: Snapshot)
    requires Completes(s, t) && Completes(t, u)
    ensures Completes(s, u)
  {
    forall n | n in u.meaning && n !in s.meaning ensures Complete(u, n) {
      if n in t.meaning {
        CompleteLater(t, u, n);
      }
    }
  }

  lemma {:induction false} CompletesByProduction(s: Snapshot, t: Snapshot)
    requires Extends(s, t) && t.meaning == s.meaning
    ensures Completes(s, t)
  {
  }

  // The nonterminal n was entered right after s, and the rest after t.
  lemma {:induction false} CompletesWith(s: Snapshot, t: Snapshot, u: Snapshot, n: nat)
    requires Extends(s, t) && Completes(t, u)
    requires n in t.meaning && t.meaning.Keys == s.meaning.Keys + {n} && Complete(u, n)
    ensures Completes(s, u)
  {
  }

  // The alternatives alts may be offered under lhs.
  ghost predicate MayOffer(rules: seq<Rule>, s: Snapshot, lhs: nat, alts: seq<Branch>) {
    lhs in s.meaning &&
    match s.meaning[lhs]
    case Name(x) => exists r :: 0 <= r < |rules| && rules[r].head == x && rules[r].alts == alts
    case Group(a) => a == alts
    case Optional(a) => a == alts
    case _ => false
  }

  lemma {:induction false} MayOfferLater(rules: seq<Rule>, s: Snapshot, t: Snapshot, lhs: nat, alts: seq<Branch>)
    requires Extends(s, t) && MayOffer(rules, s, lhs, alts)
    ensures MayOffer(rules, t, lhs, alts)
  {
  }

  // One branch more has its production.
  lemma {:induction false} AddedBody(t: Snapshot, u: Snapshot, v: Snapshot, lhs: nat, alts: seq<Branch>, j: nat, symbols: seq<Symbol>)
    requires Extends(t, u) && Extends(u, v) && j < |alts|
    requires forall i :: 0 <= i < j ==> HasBody(t, lhs, alts[i].items)
    requires Means(u, symbols, alts[j].items)
    requires v.productions == u.productions + [Production(lhs, symbols)]
    ensures forall i :: 0 <= i <= j ==> HasBody(v, lhs, alts[i].items)
  {
    ExtendsTransitive(t, u, v);
    forall i | 0 <= i < j ensures HasBody(v, lhs, alts[i].items) {
      HasBodyLater(t, v, lhs, alts[i].items);
    }
    MeansLater(u, v, symbols, alts[j].items);
    assert v.productions[|u.productions|] == Production(lhs, symbols);
  }

  lemma {:induction false} RepeatJustified(rules: seq<Rule>, s: Snapshot, lhs: nat, rhs: nat, alts: seq<Branch>)
    requires lhs in s.meaning && s.meaning[lhs] == Repeat(alts) && rhs in s.meaning && s.meaning[rhs] == Group(alts)
    ensures Justified(rules, s, lhs, [NonTerminal(rhs), NonTerminal(lhs)])
    ensures Justified(rules, s, lhs, [Terminal(EPSILON)])
  {
  }

  lemma {:induction false} RepeatComplete(q: Snapshot, r: Snapshot, t: Snapshot, lhs: nat, rhs: nat, alts: seq<Branch>)
    requires lhs in q.meaning && q.meaning[lhs] == Repeat(alts) && rhs in q.meaning && q.meaning[rhs] == Group(alts)
    requires Extends(q, r) && r.productions == q.productions + [Production(lhs, [NonTerminal(rhs), NonTerminal(lhs)])]
    requires Extends(r, t) && t.productions == r.productions + [Production(lhs, [Terminal(EPSILON)])]
    ensures Extends(q, t) && Complete(t, lhs)
  {
    assert t.productions[|q.productions|] == Production(lhs, [NonTerminal(rhs), NonTerminal(lhs)]);
    assert t.productions[|r.productions|] == Production(lhs, [Terminal(EPSILON)]);
  }

  lemma {:induction false} RepeatFinished(s: Snapshot, q: Snapshot, t: Snapshot, u: Snapshot, lhs: nat, rhs: nat, alts: seq<Branch>)
    requires Extends(s, q) && q.meaning.Keys == s.meaning.Keys + {lhs, rhs}
    requires Extends(q, t) && t.meaning == q.meaning
    requires lhs in t.meaning && t.meaning[lhs] == Repeat(alts) && Complete(t, lhs) && rhs in t.meaning && t.meaning[rhs] == Group(alts)
    requires Extends(t, u) && Completes(t, u) && HasAll(u, rhs, alts)
    ensures Extends(s, u) && Completes(s, u) && lhs in u.meaning && u.meaning[lhs] == Repeat(alts)
  {
    CompleteLater(t, u, lhs);
  }

  lemma {:induction false} RuleMayOffer(rules: seq<Rule>, s: Snapshot, n: nat, rule: Rule)
    requires rule in rules && n in s.meaning && s.meaning[n] == Name(rule.head)
    ensures MayOffer(rules, s, n, rule.alts)
  {
    var r :| 0 <= r < |rules| && rules[r] == rule;
  }

  lemma {:induction false} MeaningLater(s: Snapshot, t: Snapshot, n: nat)
    requires Extends(s, t) && n in s.meaning
    ensures n in t.meaning && t.meaning[n] == s.meaning[n]
  {
  }

  ghost predicate RuleLoaded(s: Snapshot, rule: Rule) {
    exists n :: n in s.meaning && s.meaning[n] == Name(rule.head) && HasAll(s, n, rule.alts)
  }

  ghost predicate RulesLoaded(s: Snapshot, rules: seq<Rule>, m: nat)
    requires m <= |rules|
  {
    forall r :: 0 <= r < m ==> RuleLoaded(s, rules[r])
  }

  lemma {:induction false} RuleLoadedLater(s: Snapshot, t: Snapshot, rule: Rule)
    requires Extends(s, t) && RuleLoaded(s, rule)
    ensures RuleLoaded(t, rule)
  {
    var n :| n in s.meaning && s.meaning[n] == Name(rule.head) && HasAll(s, n, rule.alts);
    HasAllLater(s, t, n, rule.alts);
  }

  // ---------- same words ----------

  // v spells w with terminal ids.
  ghost predicate Spells(s: Snapshot, v: seq<nat>, w: seq<string>) {
    && |v| == |w|
    && forall i :: 0 <= i < |v| ==> v[i] in s.texts && s.texts[v[i]] == w[i]
  }

  ghost predicate GrammarOf(s: Snapshot, g: Grammar) {
    g.productions == s.productions
  }

  // From productions to the expression.
  lemma {:induction false} TreeMatches(rules: seq<Rule>, s: Snapshot, g: Grammar, x: Tree) returns (w: seq<string>, d: nat)
    requires Expands(rules, s) && GrammarOf(s, g)
    requires Valid(g, x) && Named(s, Root(g, x))
    ensures Spells(s, Yield(x), w) && MatchItem(rules, Meaning(s, Root(g, x)), w, d)
    decreases x, 2
  {
    match x {
      case Leaf(t) =>
        w, d := if t == EPSILON then [] else [s.texts[t]], 0;
      case Node(k, kids) =>
        var p := s.productions[k];
        assert Justified(rules, s, p.head, p.body);
        w, d := NodeMatches(rules, s, g, k, kids);
    }
  }

  lemma {:induction false} NodeMatches(rules: seq<Rule>, s: Snapshot, g: Grammar, k: nat, kids: seq<Tree>) returns (w: seq<string>, d: nat)
    requires Expands(rules, s) && GrammarOf(s, g) && k < |s.productions|
    requires ValidForest(g, kids, s.productions[k].body)
    requires Justified(rules, s, s.productions[k].head, s.productions[k].body)
    ensures Spells(s, ForestYield(kids), w) && MatchItem(rules, s.meaning[s.productions[k].head], w, d)
    decreases kids, 1
  {
    var n, body := s.productions[k].head, s.productions[k].body;
    match s.meaning[n] {
      case Name(x) =>
        var r, j :| 0 <= r < |rules| && rules[r].head == x && 0 <= j < |rules[r].alts| && Means(s, body, rules[r].alts[j].items);
        w, d := ForestMatches(rules, s, g, kids, body, rules[r].alts[j].items);
        assert MatchAlts(rules, rules[r].alts, w, d);
        d := d + 1;
      case Group(alts) =>
        var j :| 0 <= j < |alts| && Means(s, body, alts[j].items);
        w, d := ForestMatches(rules, s, g, kids, body, alts[j].items);
      case Optional(alts) =>
        if body == [Terminal(EPSILON)] {
          EpsilonForest(g, kids);
          w, d := [], 0;
        } else {
          var j :| 0 <= j < |alts| && Means(s, body, alts[j].items);
          w, d := ForestMatches(rules, s, g, kids, body, alts[j].items);
          assert MatchAlts(rules, alts, w, d);
        }
      case Repeat(alts) =>
        if body == [Terminal(EPSILON)] {
          EpsilonForest(g, kids);
          w, d := [], 0;
        } else {
          assert body == [body[0], NonTerminal(n)];
          w, d := ForestMatches(rules, s, g, kids, body, [Group(alts), Repeat(alts)]);
          RepeatFromPair(rules, alts, [Group(alts), Repeat(alts)], w, d);
          d := d + 1;
        }
    }
  }

  lemma {:induction false} EpsilonForest(g: Grammar, kids: seq<Tree>)
    requires ValidForest(g, kids, [Terminal(EPSILON)])
    ensures ForestYield(kids) == []
  {
    assert kids[0] == Leaf(EPSILON) && kids[1..] == [];
  }

  lemma {:induction false} MatchSingle(rules: seq<Rule>, items: seq<Item>, w: seq<string>, d: nat)
    requires |items| == 1 && MatchSeq(rules, items, w, d)
    ensures MatchItem(rules, items[0], w, d)
  {
    var i :| 0 <= i <= |w| && MatchItem(rules, items[0], w[..i], d) && MatchSeq(rules, items[1..], w[i..], d);
    assert w[i..] == [];
    assert w[..i] == w;
  }

  // A word of the group followed by a word of the repetition is one of the repetition.
  lemma {:induction false} RepeatFromPair(rules: seq<Rule>, alts: seq<Branch>, items: seq<Item>, w: seq<string>, d: nat)
    requires items == [Group(alts), Repeat(alts)] && MatchSeq(rules, items, w, d)
    ensures MatchItem(rules, Repeat(alts), w, d + 1)
  {
    var i :| 0 <= i <= |w| && MatchItem(rules, items[0], w[..i], d) && MatchSeq(rules, items[1..], w[i..], d);
    MatchSingle(rules, items[1..], w[i..], d);
    assert MatchAlts(rules, alts, w[..i], d) && MatchItem(rules, Repeat(alts), w[i..], d);
  }

  lemma {:induction false} ForestMatches(rules: seq<Rule>, s: Snapshot, g: Grammar, xs: seq<Tree>, roots: seq<Symbol>, items: seq<Item>) returns (w: seq<string>, d: nat)
    requires Expands(rules, s) && GrammarOf(s, g)
    requires ValidForest(g, xs, roots) && Means(s, roots, items)
    ensures Spells(s, ForestYield(xs), w) && MatchSeq(rules, items, w, d)
    decreases xs, 0
  {
    hide Expands, GrammarOf, Valid, MatchItem, MatchSeq, Spells;
    if xs == [] {
      w, d := [], 0;
      NothingSpelled(rules, s, items);
    } else {
      var u, b := TreeMatches(rules, s, g, xs[0]);
      var v, c := ForestMatches(rules, s, g, xs[1..], roots[1..], items[1..]);
      d := if b < c then c else b;
      MatchItemDeeper(rules, items[0], u, b, d);
      MatchSeqDeeper(rules, items[1..], v, c, d);
      w := u + v;
      MatchSeqJoin(rules, items, u, v, d);
      SpellsConcat(s, Yield(xs[0]), u, ForestYield(xs[1..]), v);
    }
  }

  lemma {:induction false} NothingSpelled(rules: seq<Rule>, s: Snapshot, items: seq<Item>)
    ensures Spells(s, [], []) && (items == [] ==> MatchSeq(rules, items, [], 0))
  {
  }

  lemma {:induction false} MatchSeqJoin(rules: seq<Rule>, items: seq<Item>, u: seq<string>, v: seq<string>, d: nat)
    requires items != [] && MatchItem(rules, items[0], u, d) && MatchSeq(rules, items[1..], v, d)
    ensures MatchSeq(rules, items, u + v, d)
  {
    var w := u + v;
    assert w[..|u|] == u && w[|u|..] == v;
  }

  // From the expression to productions.
  lemma {:induction false} MatchTree(rules: seq<Rule>, s: Snapshot, g: Grammar, root: Symbol, w: seq<string>, d: nat) returns (x: Tree)
    requires Covers(rules, s) && GrammarOf(s, g)
    requires Named(s, root) && MatchItem(rules, Meaning(s, root), w, d)
    ensures Valid(g, x) && Root(g, x) == root && Spells(s, Yield(x), w)
    decreases d, Meaning(s, root), 1
  {
    if root.Terminal? {
      x := Leaf(root.t);
      assert s.texts[root.t] == EPSILON_NAME ==> root.t == EPSILON;
    } else {
      var n := root.n;
      assert Complete(s, n);
      match s.meaning[n] {
        case Name(name) =>
          var r :| 0 <= r < |rules| && rules[r].head == name && MatchAlts(rules, rules[r].alts, w, d - 1);
          x := AltsTree(rules, s, g, n, rules[r].alts, w, d - 1);
        case Group(alts) =>
          x := AltsTree(rules, s, g, n, alts, w, d);
        case Optional(alts) =>
          if w == [] {
            x := EpsilonTree(s, g, n);
          } else {
            x := AltsTree(rules, s, g, n, alts, w, d);
          }
        case Repeat(alts) =>
          if w == [] {
            x := EpsilonTree(s, g, n);
          } else {
            x := RepeatTree(rules, s, g, n, alts, w, d);
          }
      }
    }
  }

  lemma {:induction false} EpsilonTree(s: Snapshot, g: Grammar, n: nat) returns (x: Tree)
    requires GrammarOf(s, g) && HasEpsilon(s, n)
    ensures Valid(g, x) && Root(g, x) == NonTerminal(n) && Yield(x) == []
  {
    var k: nat :| k < |s.productions| && s.productions[k] == Production(n, [Terminal(EPSILON)]);
    x := Node(k, [Leaf(EPSILON)]);
    assert x.kids[1..] == [] && [Terminal(EPSILON)][1..] == [];
    assert ValidForest(g, x.kids[1..], [Terminal(EPSILON)][1..]);
    assert ForestYield(x.kids[1..]) == [];
    assert ForestYield(x.kids) == Yield(x.kids[0]);
  }

  lemma {:induction false} RepeatTree(rules: seq<Rule>, s: Snapshot, g: Grammar, n: nat, alts: seq<Branch>, w: seq<string>, d: nat) returns (x: Tree)
    requires Covers(rules, s) && GrammarOf(s, g)
    requires n in s.meaning && s.meaning[n] == Repeat(alts) && HasRecursion(s, n, alts)
    requires w != [] && MatchItem(rules, Repeat(alts), w, d)
    ensures Valid(g, x) && Root(g, x) == NonTerminal(n) && Spells(s, Yield(x), w)
    decreases d, Repeat(alts), 0
  {
    hide Covers, MatchAlts, Yield;
    var i :| 0 <= i <= |w| && MatchAlts(rules, alts, w[..i], d - 1) && MatchItem(rules, Repeat(alts), w[i..], d - 1);
    var k, r := RecursionAt(s, n, alts);
    var y := MatchTree(rules, s, g, NonTerminal(r), w[..i], d - 1);
    var z := MatchTree(rules, s, g, NonTerminal(n), w[i..], d - 1);
    x := PairTree(g, k, y, z);
    SpellsConcat(s, Yield(y), w[..i], Yield(z), w[i..]);
    assert w == w[..i] + w[i..];
  }

  lemma {:induction false} RecursionAt(s: Snapshot, n: nat, alts: seq<Branch>) returns (k: nat, r: nat)
    requires HasRecursion(s, n, alts)
    ensures k < |s.productions| && s.productions[k] == Production(n, [NonTerminal(r), NonTerminal(n)])
    ensures r in s.meaning && s.meaning[r] == Group(alts)
  {
    k :| k < |s.productions| && s.productions[k].head == n && RepeatBody(s, n, s.productions[k].body, alts);
    r := s.productions[k].body[0].n;
  }

  lemma {:induction false} SpellsConcat(s: Snapshot, v: seq<nat>, w: seq<string>, v': seq<nat>, w': seq<string>)
    requires Spells(s, v, w) && Spells(s, v', w')
    ensures Spells(s, v + v', w + w')
  {
  }

  lemma {:induction false} PairTree(g: Grammar, k: nat, y: Tree, z: Tree) returns (x: Tree)
    requires Valid(g, y) && Valid(g, z) && k < |g.productions| && g.productions[k].body == [Root(g, y), Root(g, z)]
    ensures Valid(g, x) && x.Node? && x.k == k && Yield(x) == Yield(y) + Yield(z)
  {
    x := Node(k, [y, z]);
    var body := g.productions[k].body;
    assert body[1..] == [Root(g, z)] && body[1..][1..] == [] && x.kids[1..] == [z] && x.kids[1..][1..] == [];
    assert ValidForest(g, x.kids[1..][1..], body[1..][1..]);
    assert ValidForest(g, x.kids[1..], body[1..]);
    assert ForestYield(x.kids[1..][1..]) == [] && ForestYield(x.kids[1..]) == Yield(z);
  }

  lemma {:induction false} AltsTree(rules: seq<Rule>, s: Snapshot, g: Grammar, n: nat, alts: seq<Branch>, w: seq<string>, d: nat) returns (x: Tree)
    requires Covers(rules, s) && GrammarOf(s, g)
    requires HasAll(s, n, alts) && MatchAlts(rules, alts, w, d)
    ensures Valid(g, x) && Root(g, x) == NonTerminal(n) && Spells(s, Yield(x), w)
    decreases d, alts, 0
  {
    var j :| 0 <= j < |alts| && MatchSeq(rules, alts[j].items, w, d);
    assert HasBody(s, n, alts[j].items);
    var k: nat :| k < |s.productions| && s.productions[k].head == n && Means(s, s.productions[k].body, alts[j].items);
    var kids := SeqForest(rules, s, g, s.productions[k].body, alts[j].items, w, d);
    x := Node(k, kids);
  }

  lemma {:induction false} SeqForest(rules: seq<Rule>, s: Snapshot, g: Grammar, roots: seq<Symbol>, items: seq<Item>, w: seq<string>, d: nat) returns (xs: seq<Tree>)
    requires Covers(rules, s) && GrammarOf(s, g)
    requires Means(s, roots, items) && MatchSeq(rules, items, w, d)
    ensures ValidForest(g, xs, roots) && Spells(s, ForestYield(xs), w)
    decreases d, items, 1
  {
    hide Covers, GrammarOf, Valid, Yield, Root, Spells, MatchItem;
    if items == [] {
      NothingSpelled(rules, s, items);
      xs := [];
    } else {
      var i :| 0 <= i <= |w| && MatchItem(rules, items[0], w[..i], d) && MatchSeq(rules, items[1..], w[i..], d);
      var x := MatchTree(rules, s, g, roots[0], w[..i], d);
      var rest := SeqForest(rules, s, g, roots[1..], items[1..], w[i..], d);
      xs := [x] + rest;
      ForestCons(g, x, rest, roots);
      SpellsConcat(s, Yield(x), w[..i], ForestYield(rest), w[i..]);
      assert w == w[..i] + w[i..];
    }
  }

  lemma {:induction false} ForestCons(g: Grammar, x: Tree, rest: seq<Tree>, roots: seq<Symbol>)
    requires roots != [] && Valid(g, x) && Root(g, x) == roots[0] && ValidForest(g, rest, roots[1..])
    ensures ValidForest(g, [x] + rest, roots) && ForestYield([x] + rest) == Yield(x) + ForestYield(rest)
  {
    assert ([x] + rest)[1..] == rest;
  }

  // The plain grammar generates exactly the words of the extended one.
  lemma {:induction false} SameWords(rules: seq<Rule>, s: Snapshot, g: Grammar, n: nat, x: string, w: seq<string>)
    requires Expands(rules, s) && GrammarOf(s, g)
    requires n in s.meaning && s.meaning[n] == Name(x)
    ensures Word(rules, x, w) <==> exists v: seq<nat>, y: Tree :: Spells(s, v, w) && TreeOf(g, y, n, v)
  {
    if Word(rules, x, w) {
      var d: nat :| MatchItem(rules, Name(x), w, d);
      var y := MatchTree(rules, s, g, NonTerminal(n), w, d);
      assert Spells(s, Yield(y), w) && TreeOf(g, y, n, Yield(y));
    }
    if v: seq<nat>, y: Tree :| Spells(s, v, w) && TreeOf(g, y, n, v) {
      var u, d := TreeMatches(rules, s, g, y);
      assert u == w;
    }
  }
}
