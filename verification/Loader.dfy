// The grammar loader (utils/grammar/Loader.cpp): a recursive-descent reader that turns
// groups, options and repetitions into extra nonterminals while it reads.
module GrammarLoader {
  import opened Wrappers
  import opened Grammars
  import opened ParseTrees
  import opened Ebnf
  import opened Expansion
  import Texts

  // getNextId (Loader.cpp:155-157).
  function GeneratedName(head: string, id: nat): string {
    head + Texts.Digits(id)
  }

  // The names that are generated within one rule differ, and end in their number.
  lemma {:induction false} GeneratedNamesDiffer(head: string, i: nat, j: nat)
    ensures GeneratedName(head, i) == GeneratedName(head, j) <==> i == j
    ensures head <= GeneratedName(head, i) && Texts.ValueOf(GeneratedName(head, i)[|head|..]) == i
  {
    Texts.DigitsParse(i);
    Texts.DigitsParse(j);
    assert GeneratedName(head, i)[|head|..] == Texts.Digits(i) && GeneratedName(head, j)[|head|..] == Texts.Digits(j);
  }

  // No name in the text looks like a generated one.
  ghost predicate NoClash(users: set<string>) {
    forall head, id: nat :: head in users ==> GeneratedName(head, id) !in users
  }

  ghost predicate TerminalsBalance(terminals: set<nat>, next: nat, idx: map<string, nat>, texts: map<nat, string>) {
    && texts.Keys == terminals && EOF in terminals
    && (forall t :: t in terminals ==> t < next)
    && EPSILON in texts && texts[EPSILON] == EPSILON_NAME
    && (forall v :: v in idx ==> idx[v] in texts && texts[idx[v]] == v)
    && (forall t :: t in texts ==> texts[t] in idx && idx[texts[t]] == t)
  }

  ghost predicate NonTerminalsBalance(
    users: set<string>, plain: bool, nonterminals: set<nat>, next: nat, idx: map<string, nat>, meaning: map<nat, Item>)
  {
    && meaning.Keys == nonterminals
    && (forall n :: n in nonterminals ==> n < next)
    && (forall x :: x in idx && x in users ==> idx[x] in meaning && meaning[idx[x]] == Name(x))
    && (forall n :: n in meaning ==> ItemOk(users, plain, meaning[n]) && !meaning[n].Text?)
    && (forall n :: n in meaning && meaning[n].Name? ==> meaning[n].name in idx && idx[meaning[n].name] == n)
  }

  lemma {:induction false} TerminalAdded(terminals: set<nat>, next: nat, idx: map<string, nat>, texts: map<nat, string>, name: string)
    requires TerminalsBalance(terminals, next, idx, texts) && name !in idx
    ensures TerminalsBalance(terminals + {next}, next + 1, idx[name := next], texts[next := name])
    ensures next !in texts
  {
  }

  lemma {:induction false} NonTerminalAdded(
    users: set<string>, plain: bool, nonterminals: set<nat>, next: nat, idx: map<string, nat>, meaning: map<nat, Item>,
    name: string, item: Item)
    requires NonTerminalsBalance(users, plain, nonterminals, next, idx, meaning)
    requires ItemOk(users, plain, item) && !item.Text? && if item.Name? then item.name == name && name !in idx else name !in users
    ensures NonTerminalsBalance(users, plain, nonterminals + {next}, next + 1, idx[name := next], meaning[next := item])
    ensures next !in meaning
  {
  }

  function Opening(item: Item): Token
    requires !item.Name? && !item.Text?
  {
    match item
    case Group(_) => LParen
    case Optional(_) => LBrack
    case Repeat(_) => LBrace
  }

  function Closing(item: Item): Token
    requires !item.Name? && !item.Text?
  {
    match item
    case Group(_) => RParen
    case Optional(_) => RBrack
    case Repeat(_) => RBrace
  }

  lemma {:induction false} Bracketed(item: Item)
    requires !item.Name? && !item.Text?
    ensures PrintItem(item) == [Opening(item)] + PrintAlts(item.alts) + [Closing(item)]
  {
    hide PrintAlts;
  }

  lemma {:induction false} BranchesOk(users: set<string>, plain: bool, rules: seq<Rule>, s: Snapshot, item: Item, lhs: nat)
    requires ItemOk(users, plain, item) && (item.Group? || item.Optional?) && lhs in s.meaning && s.meaning[lhs] == item
    ensures AltsOk(users, plain, item.alts) && MayOffer(rules, s, lhs, item.alts)
  {
    hide AltsOk;
  }

  lemma {:induction false} GroupFinished(s: Snapshot, t: Snapshot, u: Snapshot, lhs: nat)
    requires Extends(s, t) && lhs in t.meaning && t.meaning[lhs].Group? && t.meaning.Keys == s.meaning.Keys + {lhs}
    requires Extends(t, u) && Completes(t, u) && HasAll(u, lhs, t.meaning[lhs].alts)
    ensures Extends(s, u) && Completes(s, u) && lhs in u.meaning && u.meaning[lhs] == t.meaning[lhs]
  {
    assert lhs in u.meaning && u.meaning[lhs] == t.meaning[lhs];
    hide HasAll, Completes, Extends;
    ExtendsTransitive(s, t, u);
    CompletesWith(s, t, u, lhs);
  }

  lemma {:induction false} OptionJustified(rules: seq<Rule>, t: Snapshot, u: Snapshot, lhs: nat)
    requires lhs in t.meaning && t.meaning[lhs].Optional? && Extends(t, u)
    ensures Justified(rules, u, lhs, [Terminal(EPSILON)])
  {
  }

  lemma {:induction false} OptionComplete(t: Snapshot, u: Snapshot, v: Snapshot, lhs: nat)
    requires lhs in t.meaning && t.meaning[lhs].Optional? && Extends(t, u) && Extends(u, v)
    requires HasAll(v, lhs, t.meaning[lhs].alts) && v.productions == u.productions + [Production(lhs, [Terminal(EPSILON)])]
    ensures lhs in v.meaning && v.meaning[lhs] == t.meaning[lhs] && Complete(v, lhs)
  {
    hide HasAll;
    assert v.productions[|u.productions|] == Production(lhs, [Terminal(EPSILON)]);
  }

  // The alternatives and then ε make an option complete.
  lemma {:induction false} OptionFinished(s: Snapshot, t: Snapshot, u: Snapshot, v: Snapshot, lhs: nat)
    requires Extends(s, t) && lhs in t.meaning && t.meaning[lhs].Optional? && t.meaning.Keys == s.meaning.Keys + {lhs}
    requires Extends(t, u) && Completes(t, u) && HasAll(u, lhs, t.meaning[lhs].alts)
    requires Extends(u, v) && v.meaning == u.meaning && v.productions == u.productions + [Production(lhs, [Terminal(EPSILON)])]
    ensures Extends(s, v) && Completes(s, v) && lhs in v.meaning && v.meaning[lhs] == t.meaning[lhs]
  {
    hide HasAll, Completes, Complete, Extends;
    CompletesByProduction(u, v);
    CompletesThen(t, u, v);
    HasAllLater(u, v, lhs, t.meaning[lhs].alts);
    OptionComplete(t, u, v, lhs);
    ExtendsTransitive(t, u, v);
    ExtendsTransitive(s, t, v);
    CompletesWith(s, t, v, lhs);
  }

  class Loader {
    const tokens: seq<Token>
    var pos: nat
    var head: string
    var id: nat

    // The grammar under construction (utils/grammar/Grammar.h:97-103).
    var terminals: set<nat>
    var nextTerminal: nat
    var terminalIdx: map<string, nat>
    var nonterminals: set<nat>
    var nextNonTerminal: nat
    var nonterminalIdx: map<string, nat>
    var productions: seq<Production>
    var start: Option<nat>

    ghost var texts: map<nat, string>
    ghost var meaning: map<nat, Item>

    constructor (tokens: seq<Token>)
      ensures this.tokens == tokens && pos == 0 && productions == [] && start == None
      ensures meaning == map[] && forall users, plain :: BooksBalance(users, plain)
    {
      this.tokens := tokens;
      pos, head, id := 0, "", 0;
      terminals, nextTerminal := {EPSILON, EOF}, 2;
      terminalIdx := map[EPSILON_NAME := EPSILON, EOF_NAME := EOF];
      texts := map[EPSILON := EPSILON_NAME, EOF := EOF_NAME];
      nonterminals, nextNonTerminal, nonterminalIdx := {}, 0, map[];
      productions, start, meaning := [], None, map[];
    }

    function Built(): Grammar
      reads this`terminals, this`nonterminals, this`productions, this`start
    {
      Grammar(terminals, nonterminals, productions, start)
    }

    ghost function Snap(): Snapshot
      reads this`productions, this`texts, this`meaning
    {
      Snapshot(productions, texts, meaning)
    }

    // The indices, the symbol sets and the ghost books agree.
    ghost predicate BooksBalance(users: set<string>, plain: bool)
      reads this`terminals, this`nextTerminal, this`terminalIdx, this`nonterminals, this`nextNonTerminal, this`nonterminalIdx
      reads this`productions, this`texts, this`meaning
    {
      && TerminalsBalance(terminals, nextTerminal, terminalIdx, texts)
      && NonTerminalsBalance(users, plain, nonterminals, nextNonTerminal, nonterminalIdx, meaning)
    }

    // The text still to be read begins with ts.
    ghost predicate Reads(p: nat, ts: seq<Token>) {
      p + |ts| <= |tokens| && tokens[p..p + |ts|] == ts
    }

    lemma {:induction false} ReadsSplit(p: nat, a: seq<Token>, b: seq<Token>)
      requires Reads(p, a + b)
      ensures Reads(p, a) && Reads(p + |a|, b)
      ensures a != [] ==> tokens[p] == a[0]
    {
      var ts := tokens[p..p + |a + b|];
      assert tokens[p..p + |a|] == ts[..|a|] == a;
      assert tokens[p + |a|..p + |a| + |b|] == ts[|a|..] == b;
    }

    ghost predicate Invariant(users: set<string>, plain: bool, rules: seq<Rule>)
      reads this`terminals, this`nextTerminal, this`terminalIdx, this`nonterminals, this`nextNonTerminal, this`nonterminalIdx
      reads this`productions, this`texts, this`meaning
    {
      BooksBalance(users, plain) && NoClash(users) && AllJustified(rules, Snap())
    }

    method CreateProduction(lhs: nat, rhs: seq<Symbol>, ghost users: set<string>, ghost plain: bool, ghost rules: seq<Rule>)
      requires Invariant(users, plain, rules) && Justified(rules, Snap(), lhs, rhs)
      modifies this`productions
      ensures productions == old(productions) + [Production(lhs, rhs)]
      ensures Invariant(users, plain, rules) && Extends(old(Snap()), Snap())
    {
      ghost var s := Snap();
      productions := productions + [Production(lhs, rhs)];
    }

    // createNonTerminal (Grammar.cpp:97-103) for a generated or a user's name.
    method CreateNonTerminal(name: string, ghost item: Item, ghost users: set<string>, ghost plain: bool, ghost rules: seq<Rule>) returns (n: nat)
      requires Invariant(users, plain, rules) && ItemOk(users, plain, item) && !item.Text?
      requires if item.Name? then item.name == name && name !in nonterminalIdx else name !in users
      modifies this`nonterminals, this`nextNonTerminal, this`nonterminalIdx, this`meaning
      ensures Invariant(users, plain, rules) && Extends(old(Snap()), Snap())
      ensures n !in old(meaning) && meaning == old(meaning)[n := item]
      ensures nonterminalIdx == old(nonterminalIdx)[name := n]
    {
      hide AllJustified, ItemOk, NoClash, NonTerminalsBalance, TerminalsBalance;
      ghost var s := Snap();
      NonTerminalAdded(users, plain, nonterminals, nextNonTerminal, nonterminalIdx, meaning, name, item);
      n := nextNonTerminal;
      nextNonTerminal := nextNonTerminal + 1;
      nonterminals := nonterminals + {n};
      nonterminalIdx := nonterminalIdx[name := n];
      meaning := meaning[n := item];
      AllJustifiedLater(rules, s, Snap());
    }

    // non_terminal (Loader.cpp:122-133) in front of an identifier.
    method ReadNonTerminal(ghost x: string, ghost users: set<string>, ghost plain: bool, ghost rules: seq<Rule>) returns (n: nat)
      requires Invariant(users, plain, rules) && Reads(pos, [Ident(x)]) && x in users
      modifies this
      ensures Invariant(users, plain, rules) && Extends(old(Snap()), Snap()) && Completes(old(Snap()), Snap())
      ensures pos == old(pos) + 1 && head == old(head) && start == old(start) && productions == old(productions)
      ensures n in meaning && meaning[n] == Name(x) && x in nonterminalIdx && nonterminalIdx[x] == n
    {
      var token := tokens[pos];
      assert token == tokens[pos..pos + 1][0];
      pos := pos + 1;
      if token.name in nonterminalIdx {
        n := nonterminalIdx[token.name];
      } else {
        n := CreateNonTerminal(token.name, Name(x), users, plain, rules);
      }
    }

    // createTerminal (Grammar.cpp:77-83)
    method CreateTerminal(name: string, ghost users: set<string>, ghost plain: bool, ghost rules: seq<Rule>) returns (t: nat)
      requires Invariant(users, plain, rules) && name !in terminalIdx
      modifies this`terminals, this`nextTerminal, this`terminalIdx, this`texts
      ensures Invariant(users, plain, rules) && Extends(old(Snap()), Snap())
      ensures t !in old(texts) && texts == old(texts)[t := name]
    {
      hide AllJustified, ItemOk, NoClash, NonTerminalsBalance, TerminalsBalance;
      ghost var s := Snap();
      TerminalAdded(terminals, nextTerminal, terminalIdx, texts, name);
      t := nextTerminal;
      nextTerminal := nextTerminal + 1;
      terminals := terminals + {t};
      terminalIdx := terminalIdx[name := t];
      texts := texts[t := name];
      AllJustifiedLater(rules, s, Snap());
    }

    // terminal (Loader.cpp:135-153) in front of a literal.
    method ReadTerminal(ghost v: string, ghost users: set<string>, ghost plain: bool, ghost rules: seq<Rule>) returns (t: nat)
      requires Invariant(users, plain, rules) && Reads(pos, [Literal(v)])
      modifies this
      ensures Invariant(users, plain, rules) && Extends(old(Snap()), Snap()) && Completes(old(Snap()), Snap())
      ensures pos == old(pos) + 1 && head == old(head) && start == old(start) && productions == old(productions)
      ensures meaning == old(meaning) && t in texts && texts[t] == v
    {
      hide AllJustified, Complete;
      var token := tokens[pos];
      assert token == tokens[pos..pos + 1][0];
      pos := pos + 1;
      if token.value in terminalIdx {
        t := terminalIdx[token.value];
      } else {
        t := CreateTerminal(token.value, users, plain, rules);
      }
    }

    // symbol (Loader.cpp:83-120). The token text of item comes next.
    method ReadSymbol(ghost item: Item, ghost users: set<string>, ghost plain: bool, ghost rules: seq<Rule>) returns (symbol: Symbol)
      requires Invariant(users, plain, rules) && head in users
      requires Reads(pos, PrintItem(item)) && ItemOk(users, plain, item)
      modifies this
      ensures Invariant(users, plain, rules) && Extends(old(Snap()), Snap()) && Completes(old(Snap()), Snap())
      ensures pos == old(pos) + |PrintItem(item)| && head == old(head) && start == old(start)
      ensures Named(Snap(), symbol) && Meaning(Snap(), symbol) == item
      decreases item, 0
    {
      ghost var s := Snap();
      var token := tokens[pos];
      assert token == PrintItem(item)[0] by {
        assert tokens[pos..pos + |PrintItem(item)|][0] == tokens[pos];
      }
      if token.Ident? {
        var n := ReadNonTerminal(item.name, users, plain, rules);
        return NonTerminal(n);
      } else if token.Literal? {
        var t := ReadTerminal(item.value, users, plain, rules);
        return Terminal(t);
      } else if token.LParen? {
        var lhs := ReadGroup(item, users, plain, rules);
        return NonTerminal(lhs);
      } else if token.LBrack? {
        var lhs := ReadOptional(item, users, plain, rules);
        return NonTerminal(lhs);
      } else {
        var lhs := ReadRepeat(item, users, plain, rules);
        return NonTerminal(lhs);
      }
    }

    // A nonterminal under a name that no user has (getNextId, Loader.cpp:155-157).
    method Generate(ghost item: Item, ghost users: set<string>, ghost plain: bool, ghost rules: seq<Rule>) returns (n: nat)
      requires Invariant(users, plain, rules) && head in users
      requires ItemOk(users, plain, item) && !item.Text? && !item.Name?
      modifies this
      ensures Invariant(users, plain, rules) && Extends(old(Snap()), Snap())
      ensures n !in old(meaning) && meaning == old(meaning)[n := item]
      ensures nonterminalIdx == old(nonterminalIdx)[head + Texts.Digits(old(id)) := n] && id == old(id) + 1
      ensures pos == old(pos) && head == old(head) && start == old(start) && productions == old(productions)
    {
      var name := GeneratedName(head, id);
      id := id + 1;
      n := CreateNonTerminal(name, item, users, plain, rules);
    }

    // "(" alternation ")" (Loader.cpp:93-99)
    method ReadGroup(ghost item: Item, ghost users: set<string>, ghost plain: bool, ghost rules: seq<Rule>) returns (lhs: nat)
      requires item.Group? && Invariant(users, plain, rules) && head in users
      requires Reads(pos, PrintItem(item)) && ItemOk(users, plain, item)
      modifies this
      ensures Invariant(users, plain, rules) && Extends(old(Snap()), Snap()) && Completes(old(Snap()), Snap())
      ensures pos == old(pos) + |PrintItem(item)| && head == old(head) && start == old(start)
      ensures lhs in meaning && meaning[lhs] == item
      decreases item.alts, 2
    {
      hide Invariant, Completes, Extends, HasAll, Justified, AltsOk, Reads, PrintItem, PrintAlts;
      ghost var s := Snap();
      BracketText(pos, item);
      pos := pos + 1;
      lhs := Generate(item, users, plain, rules);
      ghost var t := Snap();
      BranchesOk(users, plain, rules, t, item, lhs);
      ReadAlternation(lhs, item.alts, {RParen}, RParen, users, plain, rules);
      pos := pos + 1;
      GroupFinished(s, t, Snap(), lhs);
    }

    // The text of alternatives in brackets of any kind.
    lemma {:induction false} BracketText(p: nat, item: Item)
      requires !item.Name? && !item.Text? && Reads(p, PrintItem(item))
      ensures Reads(p, [Opening(item)]) && Reads(p + 1, PrintAlts(item.alts) + [Closing(item)])
      ensures |PrintItem(item)| == |PrintAlts(item.alts)| + 2
    {
      hide PrintItem, PrintAlts, Reads;
      Bracketed(item);
      assert [Opening(item)] + PrintAlts(item.alts) + [Closing(item)] == [Opening(item)] + (PrintAlts(item.alts) + [Closing(item)]);
      ReadsSplit(p, [Opening(item)], PrintAlts(item.alts) + [Closing(item)]);
    }

    // "[" alternation "]" (Loader.cpp:100-107)
    method ReadOptional(ghost item: Item, ghost users: set<string>, ghost plain: bool, ghost rules: seq<Rule>) returns (lhs: nat)
      requires item.Optional? && Invariant(users, plain, rules) && head in users
      requires Reads(pos, PrintItem(item)) && ItemOk(users, plain, item)
      modifies this
      ensures Invariant(users, plain, rules) && Extends(old(Snap()), Snap()) && Completes(old(Snap()), Snap())
      ensures pos == old(pos) + |PrintItem(item)| && head == old(head) && start == old(start)
      ensures lhs in meaning && meaning[lhs] == item
      decreases item.alts, 2
    {
      hide Invariant, Completes, Extends, HasAll, Justified, Complete, AltsOk, Reads, PrintItem, PrintAlts;
      ghost var s := Snap();
      BracketText(pos, item);
      pos := pos + 1;
      lhs := Generate(item, users, plain, rules);
      ghost var t := Snap();
      BranchesOk(users, plain, rules, t, item, lhs);
      ReadAlternation(lhs, item.alts, {RBrack}, RBrack, users, plain, rules);
      ghost var u := Snap();
      OptionJustified(rules, t, u, lhs);
      CreateProduction(lhs, [Terminal(EPSILON)], users, plain, rules);
      pos := pos + 1;
      OptionFinished(s, t, u, Snap(), lhs);
    }

    // "{" alternation "}" (Loader.cpp:108-117)
    method ReadRepeat(ghost item: Item, ghost users: set<string>, ghost plain: bool, ghost rules: seq<Rule>) returns (lhs: nat)
      requires item.Repeat? && Invariant(users, plain, rules) && head in users
      requires Reads(pos, PrintItem(item)) && ItemOk(users, plain, item)
      modifies this
      ensures Invariant(users, plain, rules) && Extends(old(Snap()), Snap()) && Completes(old(Snap()), Snap())
      ensures pos == old(pos) + |PrintItem(item)| && head == old(head) && start == old(start)
      ensures lhs in meaning && meaning[lhs] == item
      decreases item.alts, 2
    {
      hide Invariant, Completes, Complete, Justified, Extends, HasAll, PrintItem, PrintAlts, AltsOk, Reads;
      ghost var s := Snap();
      BracketText(pos, item);
      pos := pos + 1;
      var rhs;
      ghost var q;
      lhs, rhs, q := GeneratePair(item, users, plain, rules);
      ghost var t := Snap();
      BranchesOk(users, plain, rules, t, Group(item.alts), rhs);
      ReadAlternation(rhs, item.alts, {RBrace}, RBrace, users, plain, rules);
      pos := pos + 1;
      RepeatFinished(s, q, t, Snap(), lhs, rhs, item.alts);
    }

    // The right-recursive pair of nonterminals (Loader.cpp:110-113)
    method GeneratePair(ghost item: Item, ghost users: set<string>, ghost plain: bool, ghost rules: seq<Rule>)
      returns (lhs: nat, rhs: nat, ghost q: Snapshot)
      requires item.Repeat? && Invariant(users, plain, rules) && head in users && ItemOk(users, plain, item)
      modifies this
      ensures Invariant(users, plain, rules) && pos == old(pos) && head == old(head) && start == old(start)
      ensures Extends(old(Snap()), q) && q.meaning == old(meaning)[lhs := item][rhs := Group(item.alts)] && Extends(q, Snap())
      ensures meaning == q.meaning && lhs in meaning && meaning[lhs] == item && rhs in meaning && meaning[rhs] == Group(item.alts)
      ensures Complete(Snap(), lhs)
    {
      hide Invariant, Complete, Justified, Extends, AltsOk;
      ghost var s := Snap();
      lhs := Generate(item, users, plain, rules);
      ghost var p := Snap();
      rhs := Generate(Group(item.alts), users, plain, rules);
      q := Snap();
      ExtendsTransitive(s, p, q);
      RepeatJustified(rules, q, lhs, rhs, item.alts);
      CreateProduction(lhs, [NonTerminal(rhs), NonTerminal(lhs)], users, plain, rules);
      ghost var r := Snap();
      RepeatJustified(rules, r, lhs, rhs, item.alts);
      CreateProduction(lhs, [Terminal(EPSILON)], users, plain, rules);
      RepeatComplete(q, r, Snap(), lhs, rhs, item.alts);
    }

    // A list of symbols is over exactly at the token that ends it.
    lemma {:induction false} NextToken(p: nat, items: seq<Item>, end: Token)
      requires Reads(p, PrintSeq(items) + [end])
      ensures p < |tokens|
      ensures if items == [] then tokens[p] == end
              else tokens[p] !in {Period, Pipe, RParen, RBrack, RBrace}
    {
      var ts := PrintSeq(items) + [end];
      assert tokens[p..p + |ts|][0] == tokens[p];
      if items != [] {
        assert ts[0] == PrintItem(items[0])[0];
      }
    }

    // The text of one item, and of those behind it.
    lemma {:induction false} ItemText(p: nat, items: seq<Item>, k: nat, end: Token)
      requires k < |items| && Reads(p, PrintSeq(items[k..]) + [end])
      ensures Reads(p, PrintItem(items[k])) && Reads(p + |PrintItem(items[k])|, PrintSeq(items[k + 1..]) + [end])
      ensures |PrintSeq(items[k..])| == |PrintItem(items[k])| + |PrintSeq(items[k + 1..])|
    {
      hide Reads, PrintItem;
      var rest := items[k..];
      assert rest[1..] == items[k + 1..];
      assert PrintSeq(rest) + [end] == PrintItem(items[k]) + (PrintSeq(items[k + 1..]) + [end]);
      ReadsSplit(p, PrintItem(items[k]), PrintSeq(items[k + 1..]) + [end]);
    }

    lemma {:induction false} ItemAt(users: set<string>, plain: bool, items: seq<Item>, k: nat)
      requires SeqOk(users, plain, items) && k < |items|
      ensures ItemOk(users, plain, items[k]) && items[k] in items
    {
    }

    lemma {:induction false} NoMoreItems(items: seq<Item>)
      ensures PrintSeq(items[|items|..]) == []
    {
    }

    lemma {:induction false} NoMeaning(s: Snapshot, items: seq<Item>)
      ensures Means(s, [], items[..0])
    {
    }

    lemma {:induction false} OneMoreMeaning(s: Snapshot, t: Snapshot, symbols: seq<Symbol>, items: seq<Item>, symbol: Symbol)
      requires Extends(s, t) && |symbols| < |items| && Means(s, symbols, items[..|symbols|])
      requires Named(t, symbol) && Meaning(t, symbol) == items[|symbols|]
      ensures Means(t, symbols + [symbol], items[..|symbols| + 1])
    {
      MeansLater(s, t, symbols, items[..|symbols|]);
      assert items[..|symbols| + 1] == items[..|symbols|] + [items[|symbols|]];
      hide Extends;
    }

    // symbol_list (Loader.cpp:72-81): symbols up to a token of the follow set.
    method ReadSymbolList(ghost items: seq<Item>, follows: set<Token>, ghost end: Token, ghost users: set<string>, ghost plain: bool, ghost rules: seq<Rule>)
      returns (symbols: seq<Symbol>)
      requires Invariant(users, plain, rules) && head in users
      requires Reads(pos, PrintSeq(items) + [end]) && SeqOk(users, plain, items)
      requires end in follows && follows <= {Period, Pipe, RParen, RBrack, RBrace}
      modifies this
      ensures Invariant(users, plain, rules) && Extends(old(Snap()), Snap()) && Completes(old(Snap()), Snap())
      ensures pos == old(pos) + |PrintSeq(items)| && head == old(head) && start == old(start)
      ensures Means(Snap(), symbols, items)
      decreases items, 0
    {
      hide Invariant, Completes, Complete, Justified, ItemOk, Extends, Reads, Means, PrintSeq, SeqOk, PrintItem, NoClash;
      ghost var s := Snap();
      symbols := [];
      assert items[0..] == items;
      CompletesSelf(s);
      NoMeaning(s, items);
      NextToken(pos, items, end);
      while tokens[pos] !in follows
        invariant Invariant(users, plain, rules) && Extends(s, Snap()) && Completes(s, Snap()) && head == old(head) && start == old(start)
        invariant |symbols| <= |items| && pos < |tokens| && Reads(pos, PrintSeq(items[|symbols|..]) + [end])
        invariant tokens[pos] in follows <==> |symbols| == |items|
        invariant pos + |PrintSeq(items[|symbols|..])| == old(pos) + |PrintSeq(items)|
        invariant Means(Snap(), symbols, items[..|symbols|])
        decreases |items| - |symbols|
      {
        ghost var t, k := Snap(), |symbols|;
        ItemText(pos, items, k, end);
        ItemAt(users, plain, items, k);
        var symbol := ReadSymbol(items[k], users, plain, rules);
        ExtendsTransitive(s, t, Snap());
        CompletesThen(s, t, Snap());
        OneMoreMeaning(t, Snap(), symbols, items, symbol);
        symbols := symbols + [symbol];
        NextToken(pos, items[k + 1..], end);
      }
      NoMoreItems(items);
      assert items[..|items|] == items;
    }

    // The text of the branches from j on: one branch, its end, and the later branches.
    lemma {:induction false} BranchText(p: nat, alts: seq<Branch>, j: nat, end: Token, stop: Token)
      requires j < |alts| && Reads(p, PrintAlts(alts[j..]) + [end])
      requires stop == if j + 1 == |alts| then end else Pipe
      ensures var q := p + |PrintSeq(alts[j].items)|;
        && Reads(p, PrintSeq(alts[j].items) + [stop])
        && q < |tokens| && tokens[q] == stop
        && (j + 1 < |alts| ==>
              Reads(q + 1, PrintAlts(alts[j + 1..]) + [end]) && q + 1 + |PrintAlts(alts[j + 1..])| == p + |PrintAlts(alts[j..])|)
        && (j + 1 == |alts| ==> q == p + |PrintAlts(alts[j..])|)
    {
      var rest, items := alts[j..], alts[j].items;
      var more := if j + 1 == |alts| then [] else PrintAlts(alts[j + 1..]) + [end];
      assert rest[1..] == alts[j + 1..] && rest[0] == alts[j];
      assert PrintAlts(rest) + [end] == PrintSeq(items) + [stop] + more;
      ReadsSplit(p, PrintSeq(items) + [stop], more);
      ReadsSplit(p, PrintSeq(items), [stop]);
    }

    // alternation (Loader.cpp:54-70): one production for every branch.
    method ReadAlternation(lhs: nat, ghost alts: seq<Branch>, follows: set<Token>, ghost end: Token, ghost users: set<string>, ghost plain: bool, ghost rules: seq<Rule>)
      requires Invariant(users, plain, rules) && head in users
      requires Reads(pos, PrintAlts(alts) + [end]) && AltsOk(users, plain, alts)
      requires follows == {end} && end in {Period, RParen, RBrack, RBrace}
      requires MayOffer(rules, Snap(), lhs, alts)
      modifies this
      ensures Invariant(users, plain, rules) && Extends(old(Snap()), Snap()) && Completes(old(Snap()), Snap())
      ensures pos == old(pos) + |PrintAlts(alts)| && head == old(head) && start == old(start)
      ensures HasAll(Snap(), lhs, alts)
      decreases alts, 1
    {
      hide Invariant, Completes, Complete, Justified, ItemOk, Extends, MayOffer, Means, HasBody, PrintAlts, PrintSeq, SeqOk, Reads, Snap;
      ghost var s := Snap();
      var followsPlus := follows + {Pipe};
      var token := Pipe;
      ghost var j := 0;
      assert alts[0..] == alts;
      CompletesSelf(s);
      while token !in follows
        invariant Invariant(users, plain, rules) && Extends(s, Snap()) && Completes(s, Snap()) && head == old(head) && start == old(start)
        invariant 0 <= j <= |alts| && (token in follows <==> j == |alts|)
        invariant j < |alts| ==> Reads(pos, PrintAlts(alts[j..]) + [end])
        invariant j < |alts| ==> pos + |PrintAlts(alts[j..])| == old(pos) + |PrintAlts(alts)|
        invariant j == |alts| ==> pos == old(pos) + |PrintAlts(alts)|
        invariant forall i :: 0 <= i < j ==> HasBody(Snap(), lhs, alts[i].items)
        decreases |alts| - j
      {
        ghost var t, stop := Snap(), if j + 1 == |alts| then end else Pipe;
        BranchText(pos, alts, j, end, stop);
        ReadBranch(lhs, alts, j, followsPlus, stop, users, plain, rules, s);
        ExtendsTransitive(s, t, Snap());
        CompletesThen(s, t, Snap());
        token := tokens[pos];
        if token == Pipe {
          pos := pos + 1;
        }
        j := j + 1;
      }
    }

    // One branch of an alternation: its symbols, then the production.
    method ReadBranch(lhs: nat, ghost alts: seq<Branch>, ghost j: nat, follows: set<Token>, ghost stop: Token, ghost users: set<string>, ghost plain: bool, ghost rules: seq<Rule>, ghost s: Snapshot)
      requires Invariant(users, plain, rules) && head in users && j < |alts| && AltsOk(users, plain, alts)
      requires Reads(pos, PrintSeq(alts[j].items) + [stop])
      requires stop in follows && follows <= {Period, Pipe, RParen, RBrack, RBrace}
      requires MayOffer(rules, s, lhs, alts) && Extends(s, Snap())
      requires forall i :: 0 <= i < j ==> HasBody(Snap(), lhs, alts[i].items)
      modifies this
      ensures Invariant(users, plain, rules) && Extends(old(Snap()), Snap()) && Completes(old(Snap()), Snap())
      ensures pos == old(pos) + |PrintSeq(alts[j].items)| && head == old(head) && start == old(start)
      ensures forall i :: 0 <= i <= j ==> HasBody(Snap(), lhs, alts[i].items)
      decreases alts, 0
    {
      hide Invariant, Completes, Complete, Justified, ItemOk, Extends, MayOffer, Means, HasBody, PrintAlts, PrintSeq, SeqOk;
      ghost var t := Snap();
      var symbols := ReadSymbolList(alts[j].items, follows, stop, users, plain, rules);
      ghost var u := Snap();
      ExtendsTransitive(s, t, u);
      MayOfferLater(rules, s, u, lhs, alts);
      CreateProduction(lhs, symbols, users, plain, rules);
      CompletesByProduction(u, Snap());
      ExtendsTransitive(t, u, Snap());
      CompletesThen(t, u, Snap());
      AddedBody(t, u, Snap(), lhs, alts, j, symbols);
    }

    lemma {:induction false} RuleText(p: nat, rule: Rule)
      requires Reads(p, PrintRule(rule))
      ensures Reads(p, [Ident(rule.head)]) && tokens[p] == Ident(rule.head)
      ensures var q := if rule.isStart then p + 2 else p + 1;
        && q < |tokens| && (rule.isStart ==> tokens[p + 1] == Star) && tokens[q] == Equals
        && Reads(q + 1, PrintAlts(rule.alts) + [Period])
        && q + 1 + |PrintAlts(rule.alts)| + 1 == p + |PrintRule(rule)|
    {
      var star, body := if rule.isStart then [Star] else [], PrintAlts(rule.alts);
      assert PrintRule(rule) == [Ident(rule.head)] + (star + ([Equals] + (body + [Period])));
      ReadsSplit(p, [Ident(rule.head)], star + ([Equals] + (body + [Period])));
      ReadsSplit(p + 1, star, [Equals] + (body + [Period]));
      ReadsSplit(p + 1 + |star|, [Equals], body + [Period]);
    }

    lemma {:induction false} SnapFields()
      ensures Snap().productions == productions && Snap().texts == texts && Snap().meaning == meaning
    {
    }

    // production (Loader.cpp:30-52)
    method ReadProduction(ghost rule: Rule, ghost users: set<string>, ghost plain: bool, ghost rules: seq<Rule>) returns (n: nat)
      requires Invariant(users, plain, rules) && rule in rules
      requires Reads(pos, PrintRule(rule)) && rule.head in users && AltsOk(users, plain, rule.alts)
      modifies this
      ensures Invariant(users, plain, rules) && Extends(old(Snap()), Snap()) && Completes(old(Snap()), Snap())
      ensures pos == old(pos) + |PrintRule(rule)|
      ensures n in meaning && meaning[n] == Name(rule.head) && HasAll(Snap(), n, rule.alts)
      ensures start == if rule.isStart && old(start).None? then Some(n) else old(start)
    {
      hide *;
      ghost var s := Snap();
      RuleText(pos, rule);
      n := ReadNonTerminal(rule.head, users, plain, rules);
      ghost var t := Snap();
      SnapFields();
      id := 0;
      head := tokens[pos - 1].name;
      if tokens[pos] == Star {
        pos := pos + 1;
        if start.None? {
          start := Some(n);
        }
      }
      ReadRight(n, rule, users, plain, rules);
      ExtendsTransitive(s, t, Snap());
      CompletesThen(s, t, Snap());
      MeaningLater(t, Snap(), n);
      SnapFields();
    }

    // The equals sign, the alternation and the period.
    method ReadRight(n: nat, ghost rule: Rule, ghost users: set<string>, ghost plain: bool, ghost rules: seq<Rule>)
      requires Invariant(users, plain, rules) && rule in rules && head in users && AltsOk(users, plain, rule.alts)
      requires pos < |tokens| && tokens[pos] == Equals && Reads(pos + 1, PrintAlts(rule.alts) + [Period])
      requires n in meaning && meaning[n] == Name(rule.head)
      modifies this
      ensures Invariant(users, plain, rules) && Extends(old(Snap()), Snap()) && Completes(old(Snap()), Snap())
      ensures pos == old(pos) + |PrintAlts(rule.alts)| + 2 && head == old(head) && start == old(start)
      ensures HasAll(Snap(), n, rule.alts)
    {
      hide *;
      SnapFields();
      if tokens[pos] == Equals {
        pos := pos + 1;
        RuleMayOffer(rules, Snap(), n, rule);
        ReadAlternation(n, rule.alts, {Period}, Period, users, plain, rules);
        pos := pos + 1;
      }
    }

    // The rules from m on come next.
    ghost predicate RulesAt(p: nat, rules: seq<Rule>, m: nat)
      requires m <= |rules|
    {
      Reads(p, PrintRules(rules[m..]))
    }

    // The end of the text is reached exactly when all rules are.
    lemma {:induction false} AtRule(p: nat, rules: seq<Rule>, m: nat)
      requires m <= |rules| && RulesAt(p, rules, m)
      ensures p < |tokens| && (tokens[p] == Eof <==> m == |rules|)
    {
      assert tokens[p..p + |PrintRules(rules[m..])|][0] == tokens[p];
    }

    // What the finished loader guarantees.
    ghost predicate Loaded(rules: seq<Rule>, users: set<string>, plain: bool)
      reads this
    {
      && Invariant(users, plain, rules) && Expands(rules, Snap())
      && RulesLoaded(Snap(), rules, |rules|)
      && StartIs(rules, |rules|, start, meaning)
    }

    // load (Loader.cpp:22-28)
    method Load(ghost rules: seq<Rule>, ghost users: set<string>, ghost plain: bool)
      requires BooksBalance(users, plain) && productions == [] && start == None && meaning == map[] && pos == 0
      requires tokens == PrintRules(rules) && RulesOk(users, plain, rules) && NoClash(users)
      modifies this
      ensures Loaded(rules, users, plain)
    {
      hide *;
      ghost var s, m := Snap(), 0;
      NothingLoaded(rules, users, plain, s);
      while tokens[pos] != Eof
        invariant m <= |rules| && LoadedUpTo(rules, users, plain, s, m)
        invariant pos < |tokens| && (tokens[pos] == Eof <==> m == |rules|)
        decreases |rules| - m
      {
        LoadRule(rules, users, plain, s, m);
        m := m + 1;
      }
      AllLoaded(rules, users, plain, s);
    }

    ghost predicate LoadedUpTo(rules: seq<Rule>, users: set<string>, plain: bool, s: Snapshot, m: nat)
      reads this
    {
      && m <= |rules| && RulesAt(pos, rules, m) && RulesOk(users, plain, rules)
      && Invariant(users, plain, rules) && Completes(s, Snap()) && s.meaning == map[]
      && RulesLoaded(Snap(), rules, m) && StartIs(rules, m, start, meaning)
    }

    method LoadRule(ghost rules: seq<Rule>, ghost users: set<string>, ghost plain: bool, ghost s: Snapshot, ghost m: nat)
      requires LoadedUpTo(rules, users, plain, s, m) && m < |rules|
      modifies this
      ensures LoadedUpTo(rules, users, plain, s, m + 1)
      ensures pos < |tokens| && (tokens[pos] == Eof <==> m + 1 == |rules|)
    {
      hide Invariant, RulesAt, Completes, Extends, Complete, RulesLoaded, StartIs, HasAll, AltsOk, PrintRule;
      ghost var t, rule, first := Snap(), rules[m], start;
      NextRule(pos, rules, m, users, plain);
      var n := ReadProduction(rule, users, plain, rules);
      LoadedStep(rules, s, t, Snap(), m, n);
      StartStep(rules, m, first, start, t, Snap(), n);
      AtRule(pos, rules, m + 1);
    }

    lemma {:induction false} NextRule(p: nat, rules: seq<Rule>, m: nat, users: set<string>, plain: bool)
      requires m < |rules| && RulesOk(users, plain, rules) && RulesAt(p, rules, m)
      ensures Reads(p, PrintRule(rules[m])) && RulesAt(p + |PrintRule(rules[m])|, rules, m + 1)
      ensures rules[m] in rules && rules[m].head in users && AltsOk(users, plain, rules[m].alts)
    {
      assert rules[m..][0] == rules[m] && rules[m..][1..] == rules[m + 1..];
      ReadsSplit(p, PrintRule(rules[m]), PrintRules(rules[m + 1..]));
    }

    lemma {:induction false} NothingLoaded(rules: seq<Rule>, users: set<string>, plain: bool, s: Snapshot)
      requires BooksBalance(users, plain) && productions == [] && start == None && meaning == map[] && pos == 0
      requires tokens == PrintRules(rules) && RulesOk(users, plain, rules) && NoClash(users) && s == Snap()
      ensures LoadedUpTo(rules, users, plain, s, 0)
      ensures pos < |tokens| && (tokens[pos] == Eof <==> 0 == |rules|)
    {
      assert rules[0..] == rules && tokens[0..] == tokens;
      AtRule(pos, rules, 0);
    }

    lemma {:induction false} AllLoaded(rules: seq<Rule>, users: set<string>, plain: bool, s: Snapshot)
      requires LoadedUpTo(rules, users, plain, s, |rules|)
      ensures Loaded(rules, users, plain)
    {
      assert TextsDistinct(Snap());
      forall r, n | 0 <= r < |rules| && n in meaning && meaning[n] == Name(rules[r].head)
        ensures HasAll(Snap(), n, rules[r].alts)
      {
        assert RuleLoaded(Snap(), rules[r]);
      }
    }
  }

  // The start symbol is the first one marked among the first m rules.
  ghost predicate StartIs(rules: seq<Rule>, m: nat, start: Option<nat>, meaning: map<nat, Item>)
    requires m <= |rules|
  {
    match start
    case None => forall r :: 0 <= r < m ==> !rules[r].isStart
    case Some(n) =>
      && (exists r :: 0 <= r < m && rules[r].isStart)
      && n in meaning && meaning[n] == Name(FirstStarred(rules))
  }

  lemma StartStep(rules: seq<Rule>, m: nat, first: Option<nat>, start: Option<nat>, t: Snapshot, u: Snapshot, n: nat)
    requires m < |rules| && StartIs(rules, m, first, t.meaning) && Extends(t, u)
    requires n in u.meaning && u.meaning[n] == Name(rules[m].head)
    requires start == if rules[m].isStart && first.None? then Some(n) else first
    ensures StartIs(rules, m + 1, start, u.meaning)
  {
    if rules[m].isStart && first.None? {
      FirstStarredAt(rules, m);
    }
  }

  lemma LoadedStep(rules: seq<Rule>, s: Snapshot, t: Snapshot, u: Snapshot, m: nat, n: nat)
    requires Completes(s, t) && Extends(t, u) && Completes(t, u)
    requires m < |rules| && RulesLoaded(t, rules, m)
    requires n in u.meaning && u.meaning[n] == Name(rules[m].head) && HasAll(u, n, rules[m].alts)
    ensures Completes(s, u) && RulesLoaded(u, rules, m + 1)
  {
    CompletesThen(s, t, u);
    forall r | 0 <= r < m ensures RuleLoaded(u, rules[r]) {
      RuleLoadedLater(t, u, rules[r]);
    }
  }
}
