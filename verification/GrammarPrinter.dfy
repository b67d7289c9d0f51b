/**
 The `__toString` methods of Grammar.php, the tokens their text stands for, and
 the trees that survive printing. `renderActions` is off, as it is unless a
 caller turns it on, so names, annotations and actions are not printed.
 */
module GrammarPrinter {
  import opened Wrappers
  import opened GrammarTree
  import opened GrammarDescent

  // Forced and Repeat0 have no text here: their printers throw NotImplementedException.
  function ItemText(x: Item): string
    decreases x
  {
    match x
    case NameLeaf(v) => if v == "EndMarker" then "$" else v
    case StringLeaf(v) => v
    case Group(r) => "(" + AltsText(r.alts) + ")"
    case RhsItem(r) => AltsText(r.alts)
    case Opt(n) => var s := ItemText(n); if ' ' in s then "[" + s + "]" else s + "?"
    case Repeat1(n) => var s := ItemText(n); if ' ' in s then "(" + s + ")+" else "s+"
    case Gather(s, n) => ItemText(s) + "." + ItemText(n) + "+"
    case PositiveLookahead(n) => "&" + ItemText(n)
    case NegativeLookahead(n) => "!" + ItemText(n)
    case Cut => "~"
    case _ => ""
  }

  function NamedItemText(n: NamedItem): string
    decreases n
  {
    ItemText(n.item)
  }

  // implode(' | ', $alts)
  function AltsText(alts: seq<Alt>): string
    decreases alts
  {
    if alts == [] then ""
    else if |alts| == 1 then AltText(alts[0])
    else AltText(alts[0]) + " | " + AltsText(alts[1..])
  }

  function AltText(a: Alt): string
    decreases a
  {
    var core := Core(a.items);
    if core == "" then "" else core[1..]
  }

  // Every item after a space.
  function Core(items: seq<NamedItem>): string
    decreases items
  {
    if items == [] then "" else " " + NamedItemText(items[0]) + Core(items[1..])
  }

  /** A rule is broken over several lines once it is 88 characters long. */
  predicate OneLine(r: Rule) {
    |r.name + ": " + AltsText(r.rhs.alts)| < 88
  }

  // explode(':', $s)[0]
  function BeforeColon(s: string): string {
    if s == "" || s[0] == ':' then "" else [s[0]] + BeforeColon(s[1..])
  }

  /** The lines of a printed rule. */
  function RuleLines(r: Rule): seq<string> {
    var text := r.name + ": " + AltsText(r.rhs.alts);
    if OneLine(r) then [text] else [BeforeColon(text) + ":"] + AltLines(r.rhs.alts)
  }

  // implode("\n", $lines)
  function Implode(lines: seq<string>): string {
    if lines == [] then ""
    else if |lines| == 1 then lines[0]
    else lines[0] + "\n" + Implode(lines[1..])
  }

  function RuleText(r: Rule): string {
    Implode(RuleLines(r))
  }

  function RulesText(rules: seq<Rule>): string {
    if rules == [] then "" else RuleText(rules[0]) + "\n" + RulesText(rules[1..])
  }

  function TextOfGrammar(g: Grammar): string {
    RulesText(Values(g.rules))
  }

  function AltLines(alts: seq<Alt>): seq<string> {
    if alts == [] then [] else ["    | " + AltText(alts[0])] + AltLines(alts[1..])
  }

  // Tokens

  function Punct(s: string): Token {
    Token(Op, s)
  }

  // `$` is not among the operators of GrammarTokenizerRe.
  const Dollar := Token(ErrorMarker, "$")
  const LineEnd := Token(NewLine, "\n")

  function ItemTokens(x: Item): seq<Token>
    decreases x
  {
    match x
    case NameLeaf(v) => if v == "EndMarker" then [Dollar] else [Token(Name, v)]
    case StringLeaf(v) => [Token(String, v)]
    case Group(r) => [Punct("(")] + AltsTokens(r.alts) + [Punct(")")]
    case RhsItem(r) => AltsTokens(r.alts)
    case Opt(n) =>
      if ' ' in ItemText(n) then [Punct("[")] + ItemTokens(n) + [Punct("]")] else ItemTokens(n) + [Punct("?")]
    case Repeat1(n) =>
      if ' ' in ItemText(n) then [Punct("(")] + ItemTokens(n) + [Punct(")"), Punct("+")]
      else [Token(Name, "s"), Punct("+")]
    case Gather(s, n) => ItemTokens(s) + [Punct(".")] + ItemTokens(n) + [Punct("+")]
    case PositiveLookahead(n) => [Punct("&")] + ItemTokens(n)
    case NegativeLookahead(n) => [Punct("!")] + ItemTokens(n)
    case Cut => [Punct("~")]
    case _ => []
  }

  function NamedItemTokens(n: NamedItem): seq<Token>
    decreases n
  {
    ItemTokens(n.item)
  }

  function AltsTokens(alts: seq<Alt>): seq<Token>
    decreases alts
  {
    if alts == [] then []
    else if |alts| == 1 then ItemsTokens(alts[0].items)
    else ItemsTokens(alts[0].items) + [Punct("|")] + AltsTokens(alts[1..])
  }

  function ItemsTokens(items: seq<NamedItem>): seq<Token>
    decreases items
  {
    if items == [] then [] else NamedItemTokens(items[0]) + ItemsTokens(items[1..])
  }

  function BlockTokens(alts: seq<Alt>): seq<Token> {
    if alts == [] then []
    else [Punct("|")] + ItemsTokens(alts[0].items) + [LineEnd] + BlockTokens(alts[1..])
  }

  function RuleTokens(r: Rule): seq<Token> {
    var head := [Token(Name, r.name), Punct(":")];
    if OneLine(r) then head + AltsTokens(r.rhs.alts) + [LineEnd]
    else head + [LineEnd, Token(Indent, "    ")] + BlockTokens(r.rhs.alts) + [Token(Dedent, "")]
  }

  function RulesTokens(rules: seq<Rule>): seq<Token> {
    if rules == [] then [] else RuleTokens(rules[0]) + RulesTokens(rules[1..])
  }

  // Trees that survive printing

  predicate IsWordChar(c: char) {
    'a' <= c <= 'z' || 'A' <= c <= 'Z' || '0' <= c <= '9' || c == '_'
  }

  predicate Identifier(s: string) {
    s != "" && !('0' <= s[0] <= '9') && forall c :: c in s ==> IsWordChar(c)
  }

  /** A one-line string literal without escapes or a prefix. */
  predicate Literal(s: string) {
    && |s| >= 2 && s[0] in {'\'', '\"'} && s[|s| - 1] == s[0]
    && forall i :: 0 < i < |s| - 1 ==> s[i] != s[0] && s[i] != '\\' && s[i] != '\n'
  }

  predicate IsAtom(x: Item) {
    x.NameLeaf? || x.StringLeaf? || x.Group?
  }

  predicate Canonical(x: Item)
    decreases x
  {
    match x
    case NameLeaf(v) => Identifier(v) && v != "EndMarker"
    case StringLeaf(v) => Literal(v)
    case Group(r) => CanonicalRhs(r)
    case Opt(RhsItem(r)) => CanonicalRhs(r) && ' ' in AltsText(r.alts)
    case Opt(n) => IsAtom(n) && Canonical(n) && ' ' !in ItemText(n)
    case Gather(s, n) => IsAtom(s) && Canonical(s) && IsAtom(n) && Canonical(n)
    case PositiveLookahead(n) => IsAtom(n) && Canonical(n)
    case NegativeLookahead(n) => IsAtom(n) && Canonical(n)
    case Cut => true
    case _ => false
  }

  predicate CanonicalRhs(r: Rhs)
    decreases r
  {
    r.alts != [] && forall a :: a in r.alts ==> CanonicalAlt(a)
  }

  /** Unnamed canonical items, after which `$` may stand; no action. */
  predicate CanonicalAlt(a: Alt)
    decreases a
  {
    && a.action == None && a.items != []
    && (a.items[|a.items| - 1] == EndItem ==> |a.items| > 1)
    && forall k :: 0 <= k < |a.items| ==>
         (k == |a.items| - 1 && a.items[k] == EndItem) || CanonicalNamedItem(a.items[k])
  }

  predicate CanonicalNamedItem(n: NamedItem)
    decreases n
  {
    n.name == None && n.annotation == None && Canonical(n.item)
  }

  predicate CanonicalRule(r: Rule) {
    Identifier(r.name) && r.annotation == None && CanonicalRhs(r.rhs)
  }

  function Values<V>(m: Dict<V>): seq<V> {
    seq(|m|, i requires 0 <= i < |m| => m[i].1)
  }

  /** Canonical rules under their own names, at least one, and no metas, which are not printed. */
  predicate CanonicalGrammar(g: Grammar) {
    && g.rules != [] && g.metas == []
    && (forall i :: 0 <= i < |g.rules| ==> g.rules[i].0 == g.rules[i].1.name && CanonicalRule(g.rules[i].1))
    && (forall i, j :: 0 <= i < j < |g.rules| ==> g.rules[i].0 != g.rules[j].0)
  }

  function GrammarTokens(g: Grammar): seq<Token> {
    RulesTokens(Values(g.rules)) + [Token(EndMarker, "")]
  }

  function Leaf(name: string): NamedItem {
    NamedItem(None, NameLeaf(name), None)
  }

  /** Printed on one line, the rule starts with the words `NewLine Indent |`, which `expect` takes for layout. */
  predicate LooksLikeBlock(r: Rule) {
    OneLine(r) && |r.rhs.alts| > 1 && r.rhs.alts[0].items == [Leaf("NewLine"), Leaf("Indent")]
  }

  /** Such a rule stands before a rule named `Dedent`. */
  predicate Clash(rules: seq<Rule>) {
    exists k :: 0 <= k < |rules| - 1 && LooksLikeBlock(rules[k]) && rules[k + 1].name == "Dedent"
  }
}
