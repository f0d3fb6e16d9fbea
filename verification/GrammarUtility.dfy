// The grammar utility from text to verdict (utils/grammar/main.cpp).
module GrammarUtility {
  import opened Wrappers
  import opened Grammars
  import opened ParseTrees
  import opened Ebnf
  import opened Expansion
  import opened GrammarLoader
  import FirstSets
  import FollowSets
  import FollowMeaning
  import BacktrackFree

  // A plain text loads into a grammar the validator can take, with no ε behind a nonterminal.
  lemma PlainBodies(rules: seq<Rule>, users: set<string>, s: Snapshot, head: nat, body: seq<Symbol>)
    requires RulesOk(users, true, rules) && Justified(rules, s, head, body) && ItemOk(users, true, s.meaning[head])
    requires TextsDistinct(s) && forall n :: n in s.meaning ==> !s.meaning[n].Text?
    ensures body != [] && forall i :: 0 <= i < |body| ==> Named(s, body[i])
    ensures forall i :: 0 < i < |body| && body[i] == Terminal(EPSILON) ==> body[i - 1].Terminal?
  {
    if body != [Terminal(EPSILON)] && !(s.meaning[head].Repeat? && RepeatBody(s, head, body, s.meaning[head].alts)) {
      var items := JustifyingItems(rules, users, s, head, body);
      forall i | 0 < i < |body| && body[i] == Terminal(EPSILON) ensures body[i - 1].Terminal? {
        assert Meaning(s, body[i]) == items[i] && Meaning(s, body[i - 1]) == items[i - 1];
      }
    }
  }

  lemma JustifyingItems(rules: seq<Rule>, users: set<string>, s: Snapshot, head: nat, body: seq<Symbol>) returns (items: seq<Item>)
    requires RulesOk(users, true, rules) && Justified(rules, s, head, body) && ItemOk(users, true, s.meaning[head])
    requires body != [Terminal(EPSILON)] && !(s.meaning[head].Repeat? && RepeatBody(s, head, body, s.meaning[head].alts))
    ensures Means(s, body, items) && items != [] && SeqOk(users, true, items)
  {
    match s.meaning[head] {
      case Name(x) =>
        var r, j :| 0 <= r < |rules| && rules[r].head == x && 0 <= j < |rules[r].alts| && Means(s, body, rules[r].alts[j].items);
        items := rules[r].alts[j].items;
      case Group(alts) =>
        var j :| 0 <= j < |alts| && Means(s, body, alts[j].items);
        items := alts[j].items;
      case Optional(alts) =>
        var j :| 0 <= j < |alts| && Means(s, body, alts[j].items);
        items := alts[j].items;
    }
  }

  lemma PlainTextIsWellFormed(loader: Loader, rules: seq<Rule>, users: set<string>)
    requires loader.Loaded(rules, users, true) && RulesOk(users, true, rules)
    ensures WellFormed(loader.Built()) && !FollowMeaning.EpsilonBehindNonTerminal(loader.Built())
  {
    var g, s := loader.Built(), loader.Snap();
    forall k | 0 <= k < |g.productions|
      ensures WellFormedProduction(g, g.productions[k])
      ensures forall i: nat :: !FollowMeaning.EpsilonBehindAt(g, k, i)
    {
      var p := g.productions[k];
      assert Justified(rules, s, p.head, p.body);
      PlainBodies(rules, users, s, p.head, p.body);
      forall i | 0 <= i < |p.body| ensures Known(g, p.body[i]) {
        assert Named(s, p.body[i]);
      }
    }
  }

  // The word w has a spelling with a parse tree, and no second tree.
  ghost predicate OneTree(s: Snapshot, g: Grammar, n: nat, w: seq<string>) {
    exists v: seq<nat>, y ::
      && Spells(s, v, w) && TreeOf(g, y, n, v)
      && forall v': seq<nat>, y' :: Spells(s, v', w) && TreeOf(g, y', n, v') ==> y' == y
  }

  // In an accepted grammar every word of the extended rules has exactly one parse tree.
  lemma AcceptedTextIsUnambiguous(rules: seq<Rule>, s: Snapshot, g: Grammar, x: string,
      first: FirstSets.SetMap, follow: FollowSets.FollowMap, plus: seq<set<nat>>, w: seq<string>)
    requires Expands(rules, s) && GrammarOf(s, g) && g.start.Some?
    requires g.start.value in s.meaning && s.meaning[g.start.value] == Name(x)
    requires BacktrackFree.Accepted(g, first, follow, plus) && !FollowMeaning.EpsilonBehindNonTerminal(g)
    requires Word(rules, x, w)
    ensures OneTree(s, g, g.start.value, w)
  {
    var n := g.start.value;
    SameWords(rules, s, g, n, x, w);
    var v: seq<nat>, y :| Spells(s, v, w) && TreeOf(g, y, n, v);
    forall v': seq<nat>, y' | Spells(s, v', w) && TreeOf(g, y', n, v') ensures y' == y {
      BacktrackFree.AcceptedIsUnambiguous(g, first, follow, plus, y, y', v);
    }
  }

  method Run(tokens: seq<Token>, ghost rules: seq<Rule>, ghost users: set<string>) returns (free: bool, loader: Loader)
    requires tokens == PrintRules(rules) && RulesOk(users, true, rules) && NoClash(users)
    ensures loader.Loaded(rules, users, true)
    ensures free && loader.start.Some? ==> forall w: seq<string> :: Word(rules, FirstStarred(rules), w) ==>
      OneTree(loader.Snap(), loader.Built(), loader.start.value, w)
  {
    loader := new Loader(tokens);
    loader.Load(rules, users, true);
    PlainTextIsWellFormed(loader, rules, users);
    var pair, first, follow, plus;
    free, pair, first, follow, plus := BacktrackFree.Validate(loader.Built());
    if free && loader.start.Some? {
      forall w: seq<string> | Word(rules, FirstStarred(rules), w)
        ensures OneTree(loader.Snap(), loader.Built(), loader.start.value, w)
      {
        AcceptedTextIsUnambiguous(rules, loader.Snap(), loader.Built(), FirstStarred(rules), first, follow, plus, w);
      }
    }
  }
}
