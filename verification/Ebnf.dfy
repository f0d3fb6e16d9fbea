// Extended grammars as the loader reads them: expressions with groups, options and
// repetitions, their token text, and the words they stand for.
module Ebnf {
  import opened Grammars

  datatype Item =
    | Name(name: string)
    | Text(value: string)
    | Group(alts: seq<Branch>)
    | Optional(alts: seq<Branch>)
    | Repeat(alts: seq<Branch>)

  // One alternative: a possibly empty list of items.
  datatype Branch = Branch(items: seq<Item>)

  datatype Rule = Rule(head: string, isStart: bool, alts: seq<Branch>)

  // The name of the terminal that stands for the empty word (Grammar.cpp:53).
  const EPSILON_NAME: string := "\U{03B5}"
  const EOF_NAME: string := "\U{2205}"

  // ---------- concrete syntax ----------

  datatype Token =
    | Ident(name: string) | Literal(value: string)
    | Star | Equals | Period | Pipe
    | LParen | RParen | LBrack | RBrack | LBrace | RBrace
    | Eof

  function PrintItem(item: Item): (ts: seq<Token>)
    ensures ts != [] && (ts[0].Ident? || ts[0].Literal? || ts[0].LParen? || ts[0].LBrack? || ts[0].LBrace?)
    decreases item
  {
    match item
    case Name(x) => [Ident(x)]
    case Text(v) => [Literal(v)]
    case Group(alts) => [LParen] + PrintAlts(alts) + [RParen]
    case Optional(alts) => [LBrack] + PrintAlts(alts) + [RBrack]
    case Repeat(alts) => [LBrace] + PrintAlts(alts) + [RBrace]
  }

  function PrintSeq(items: seq<Item>): seq<Token>
    decreases items
  {
    if items == [] then [] else PrintItem(items[0]) + PrintSeq(items[1..])
  }

  function PrintAlts(alts: seq<Branch>): seq<Token>
    decreases alts
  {
    if alts == [] then []
    else if |alts| == 1 then PrintSeq(alts[0].items)
    else PrintSeq(alts[0].items) + [Pipe] + PrintAlts(alts[1..])
  }

  function PrintRule(rule: Rule): seq<Token> {
    [Ident(rule.head)] + (if rule.isStart then [Star] else []) + [Equals] + PrintAlts(rule.alts) + [Period]
  }

  function PrintRules(rules: seq<Rule>): seq<Token> {
    if rules == [] then [Eof] else PrintRule(rules[0]) + PrintRules(rules[1..])
  }

  // ---------- well-formed expressions ----------

  // Names come from users. A plain expression has no empty alternative, and ε is not
  // spelled out behind anything but a literal.
  ghost predicate ItemOk(users: set<string>, plain: bool, item: Item)
    decreases item
  {
    match item
    case Name(x) => x in users
    case Text(_) => true
    case _ => AltsOk(users, plain, item.alts)
  }

  ghost predicate SeqOk(users: set<string>, plain: bool, items: seq<Item>)
    decreases items
  {
    && (forall i :: 0 <= i < |items| ==> ItemOk(users, plain, items[i]))
    && (plain ==> forall i :: 0 < i < |items| && items[i] == Text(EPSILON_NAME) ==> items[i - 1].Text?)
  }

  ghost predicate AltsOk(users: set<string>, plain: bool, alts: seq<Branch>)
    decreases alts
  {
    && alts != []
    && forall j :: 0 <= j < |alts| ==> SeqOk(users, plain, alts[j].items) && (plain ==> alts[j].items != [])
  }

  ghost predicate RulesOk(users: set<string>, plain: bool, rules: seq<Rule>) {
    forall r :: 0 <= r < |rules| ==> rules[r].head in users && AltsOk(users, plain, rules[r].alts)
  }

  // The start symbol is the head of the first rule marked with a star.
  function FirstStarred(rules: seq<Rule>): string
    requires exists r :: 0 <= r < |rules| && rules[r].isStart
  {
    if rules[0].isStart then rules[0].head else FirstStarred(rules[1..])
  }

  lemma {:induction false} FirstStarredAt(rules: seq<Rule>, m: nat)
    requires m < |rules| && rules[m].isStart && forall r :: 0 <= r < m ==> !rules[r].isStart
    ensures FirstStarred(rules) == rules[m].head
  {
    if m > 0 {
      FirstStarredAt(rules[1..], m - 1);
    }
  }

  // ---------- the words of an expression ----------

  // item matches the word w within nesting depth d.
  ghost predicate MatchItem(rules: seq<Rule>, item: Item, w: seq<string>, d: nat)
    decreases d, item
  {
    match item
    case Name(x) =>
      d > 0 && exists r :: 0 <= r < |rules| && rules[r].head == x && MatchAlts(rules, rules[r].alts, w, d - 1)
    case Text(v) => w == if v == EPSILON_NAME then [] else [v]
    case Group(alts) => MatchAlts(rules, alts, w, d)
    case Optional(alts) => w == [] || MatchAlts(rules, alts, w, d)
    case Repeat(alts) =>
      || w == []
      || (d > 0 &&
          exists i :: 0 <= i <= |w| && MatchAlts(rules, alts, w[..i], d - 1) && MatchItem(rules, item, w[i..], d - 1))
  }

  ghost predicate MatchAlts(rules: seq<Rule>, alts: seq<Branch>, w: seq<string>, d: nat)
    decreases d, alts
  {
    exists j :: 0 <= j < |alts| && MatchSeq(rules, alts[j].items, w, d)
  }

  ghost predicate MatchSeq(rules: seq<Rule>, items: seq<Item>, w: seq<string>, d: nat)
    decreases d, items
  {
    if items == [] then w == []
    else exists i :: 0 <= i <= |w| && MatchItem(rules, items[0], w[..i], d) && MatchSeq(rules, items[1..], w[i..], d)
  }

  // w is a word of the nonterminal x.
  ghost predicate Word(rules: seq<Rule>, x: string, w: seq<string>) {
    exists d: nat :: MatchItem(rules, Name(x), w, d)
  }

  lemma {:induction false} MatchItemDeeper(rules: seq<Rule>, item: Item, w: seq<string>, d: nat, e: nat)
    requires MatchItem(rules, item, w, d) && d <= e
    ensures MatchItem(rules, item, w, e)
    decreases d, item
  {
    match item {
      case Name(x) =>
        var r :| 0 <= r < |rules| && rules[r].head == x && MatchAlts(rules, rules[r].alts, w, d - 1);
        MatchAltsDeeper(rules, rules[r].alts, w, d - 1, e - 1);
      case Text(_) =>
      case Group(alts) => MatchAltsDeeper(rules, alts, w, d, e);
      case Optional(alts) => if w != [] { MatchAltsDeeper(rules, alts, w, d, e); }
      case Repeat(alts) =>
        if w != [] {
          var i :| 0 <= i <= |w| && MatchAlts(rules, alts, w[..i], d - 1) && MatchItem(rules, item, w[i..], d - 1);
          MatchAltsDeeper(rules, alts, w[..i], d - 1, e - 1);
          MatchItemDeeper(rules, item, w[i..], d - 1, e - 1);
        }
    }
  }

  lemma {:induction false} MatchAltsDeeper(rules: seq<Rule>, alts: seq<Branch>, w: seq<string>, d: nat, e: nat)
    requires MatchAlts(rules, alts, w, d) && d <= e
    ensures MatchAlts(rules, alts, w, e)
    decreases d, alts
  {
    var j :| 0 <= j < |alts| && MatchSeq(rules, alts[j].items, w, d);
    MatchSeqDeeper(rules, alts[j].items, w, d, e);
  }

  lemma {:induction false} MatchSeqDeeper(rules: seq<Rule>, items: seq<Item>, w: seq<string>, d: nat, e: nat)
    requires MatchSeq(rules, items, w, d) && d <= e
    ensures MatchSeq(rules, items, w, e)
    decreases d, items
  {
    if items != [] {
      var i :| 0 <= i <= |w| && MatchItem(rules, items[0], w[..i], d) && MatchSeq(rules, items[1..], w[i..], d);
      MatchItemDeeper(rules, items[0], w[..i], d, e);
      MatchSeqDeeper(rules, items[1..], w[i..], d, e);
    }
  }
}
