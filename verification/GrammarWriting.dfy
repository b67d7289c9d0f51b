/**
 How trees are written in the language of grammars: the tokens of each, with all
 that the language has. A style holds what trees do not: how types and actions
 are spelled, which rules are marked for memoising, and how rules are laid out.
 */
module GrammarWriting {
  import opened Wrappers
  import opened GrammarTree
  import opened GrammarDescent
  import opened GrammarPrinter

  // Types and actions

  datatype Atom =
    | Code(text: string)         // the text between the braces of an action
    | Word(text: string)
    | StarWord(text: string)
    | Num(text: string)
    | Str(text: string)
    | Sign(text: string)
    | Nested(atoms: seq<Atom>)

  function AtomTokens(a: Atom): seq<Token>
    decreases a
  {
    match a
    case Code(v) => [Token(GrammarAction, v)]
    case Word(v) => [Token(Name, v)]
    case StarWord(v) => [Token(Name, v)] + [Punct("*")]
    case Num(v) => [Token(Number, v)]
    case Str(v) => [Token(String, v)]
    case Sign(v) => [Punct(v)]
    case Nested(atoms) => [Punct("[")] + (AtomsTokens(atoms) + [Punct("]")])
  }

  function AtomsTokens(atoms: seq<Atom>): seq<Token>
    decreases atoms
  {
    if atoms == [] then [] else AtomTokens(atoms[0]) + AtomsTokens(atoms[1..])
  }

  /** The text that the parser keeps: a star joins its word, and what stands in nested brackets is dropped. */
  function AtomText(a: Atom): string {
    match a
    case Code(v) => Trim(v)
    case StarWord(v) => v + "*"
    case Nested(_) => "[]"
    case Word(v) => v
    case Num(v) => v
    case Str(v) => v
    case Sign(v) => v
  }

  function AtomsText(atoms: seq<Atom>): string {
    if atoms == [] then ""
    else if |atoms| == 1 then AtomText(atoms[0])
    else AtomText(atoms[0]) + " " + AtomsText(atoms[1..])
  }

  /** A string literal, whatever its prefix and quotes. */
  predicate Quoted(s: string) {
    |s| >= 2 && s[|s| - 1] in {'\'', '\"'}
  }

  predicate GoodAtom(a: Atom)
    decreases a
  {
    match a
    case Code(v) => TruthyText(Trim(v))
    case Word(v) => Identifier(v)
    case StarWord(v) => Identifier(v)
    case Num(v) => v != "0" && v != "" && '0' <= v[0] <= '9'
    case Str(v) => Quoted(v)
    case Sign(v) => v !in {"", "0", "[", "]", "}"}
    case Nested(atoms) => GoodAtoms(atoms)
  }

  /** A star directly after a word is part of it, and code that is only a star is taken for one. */
  predicate GoodAtoms(atoms: seq<Atom>)
    decreases atoms
  {
    atoms == [] ||
    (&& GoodAtom(atoms[0]) && GoodAtoms(atoms[1..])
     && (atoms[0].Word? && |atoms| > 1 ==> atoms[1] != Sign("*") && atoms[1] != Code("*")))
  }

  // Styles

  /** How many alternatives stand on the line of the head, and on each line of the block below. */
  datatype Layout = Layout(head: nat, lines: seq<nat>)

  datatype Style = Style(spelling: map<string, seq<Atom>>, memo: set<Rule>, layout: map<Rule, Layout>)

  predicate Spelled(s: Style, text: string) {
    && text in s.spelling && s.spelling[text] != [] && GoodAtoms(s.spelling[text])
    && AtomsText(s.spelling[text]) == text
  }

  function Spelling(s: Style, text: string): seq<Token> {
    if text in s.spelling then AtomsTokens(s.spelling[text]) else []
  }

  function LayoutOf(s: Style, r: Rule): Layout {
    if r in s.layout then s.layout[r] else Layout(|r.rhs.alts|, [])
  }

  // Trees

  function WriteItem(s: Style, x: Item): seq<Token>
    decreases x
  {
    match x
    case NameLeaf(v) => [Token(Name, v)]
    case StringLeaf(v) => [Token(String, v)]
    case Group(r) => [Punct("(")] + (WriteAlts(s, r.alts) + [Punct(")")])
    case RhsItem(r) => WriteAlts(s, r.alts)
    case Opt(n) =>
      if n.RhsItem? then [Punct("[")] + (WriteItem(s, n) + [Punct("]")]) else WriteItem(s, n) + [Punct("?")]
    case Repeat0(n) => WriteItem(s, n) + [Punct("*")]
    case Repeat1(n) => WriteItem(s, n) + [Punct("+")]
    case Gather(separator, n) => WriteItem(s, separator) + ([Punct(".")] + (WriteItem(s, n) + [Punct("+")]))
    case Forced(n) => [Punct("&")] + ([Punct("&")] + WriteItem(s, n))
    case PositiveLookahead(n) => [Punct("&")] + WriteItem(s, n)
    case NegativeLookahead(n) => [Punct("!")] + WriteItem(s, n)
    case Cut => [Punct("~")]
  }

  function InBrackets(s: Style, text: string): seq<Token> {
    [Punct("[")] + (Spelling(s, text) + [Punct("]")])
  }

  /** The name of an item and its type, with the equals sign. */
  function WriteName(s: Style, n: NamedItem): seq<Token> {
    if n.name.None? then []
    else if n.annotation.None? then [Token(Name, n.name.value)] + [Punct("=")]
    else [Token(Name, n.name.value)] + (InBrackets(s, n.annotation.value) + [Punct("=")])
  }

  function WriteNamedItem(s: Style, n: NamedItem): seq<Token>
    decreases n
  {
    WriteName(s, n) + WriteItem(s, n.item)
  }

  function WriteItems(s: Style, items: seq<NamedItem>): seq<Token>
    decreases items
  {
    if items == [] then [] else WriteNamedItem(s, items[0]) + WriteItems(s, items[1..])
  }

  /** The last of several items is written as `$` when it is the end marker. */
  predicate EndsInDollar(a: Alt) {
    |a.items| > 1 && a.items[|a.items| - 1] == EndItem
  }

  function Body(a: Alt): seq<NamedItem> {
    if EndsInDollar(a) then a.items[..|a.items| - 1] else a.items
  }

  /** What follows the items of an alternative. */
  function WriteTail(s: Style, a: Alt): seq<Token> {
    (if EndsInDollar(a) then [Dollar] else []) + WriteAction(s, a.action)
  }

  function WriteAction(s: Style, action: Option<string>): seq<Token> {
    if action.Some? then [Punct("{")] + (Spelling(s, action.value) + [Punct("}")]) else []
  }

  function WriteAlt(s: Style, a: Alt): seq<Token>
    decreases a
  {
    WriteItems(s, Body(a)) + WriteTail(s, a)
  }

  function WriteAlts(s: Style, alts: seq<Alt>): seq<Token>
    decreases alts
  {
    if alts == [] then []
    else if |alts| == 1 then WriteAlt(s, alts[0])
    else WriteAlt(s, alts[0]) + ([Punct("|")] + WriteAlts(s, alts[1..]))
  }

  function WriteHead(s: Style, r: Rule): seq<Token> {
    [Token(Name, r.name)]
    + ((if r.annotation.Some? then InBrackets(s, r.annotation.value) else [])
       + ((if r in s.memo then [Punct("("), Token(Name, "memo"), Punct(")")] else [])
          + [Punct(":")]))
  }

  /** A line of alternatives, for each of the given numbers of them. */
  function WriteLines(s: Style, alts: seq<Alt>, lines: seq<nat>): seq<Token>
    decreases |lines|
  {
    if lines == [] || lines[0] > |alts| then []
    else
      [Punct("|")] + (WriteAlts(s, alts[..lines[0]]) + ([LineEnd] + WriteLines(s, alts[lines[0]..], lines[1..])))
  }

  function WriteBlock(s: Style, alts: seq<Alt>, lines: seq<nat>): seq<Token> {
    [Token(Indent, "    ")] + (WriteLines(s, alts, lines) + [Token(Dedent, "")])
  }

  function WriteRule(s: Style, r: Rule): seq<Token> {
    var l := LayoutOf(s, r);
    var n := if l.head > |r.rhs.alts| then |r.rhs.alts| else l.head;
    WriteHead(s, r) + (WriteAlts(s, r.rhs.alts[..n]) + ([LineEnd]
    + if l.lines == [] then [] else WriteBlock(s, r.rhs.alts[n..], l.lines)))
  }

  function WriteRules(s: Style, rules: seq<Rule>): seq<Token> {
    if rules == [] then [] else WriteRule(s, rules[0]) + WriteRules(s, rules[1..])
  }

  function WriteMeta(m: Meta): seq<Token> {
    [Punct("@")] + ([Token(Name, m.name)]
    + (match m.value
       case NoValue => [LineEnd]
       case NameValue(v) => [Token(Name, v)] + [LineEnd]
       case LiteralValue(v) => [Token(String, v)] + [LineEnd]))
  }

  function WriteMetas(metas: seq<Meta>): seq<Token> {
    if metas == [] then [] else WriteMeta(metas[0]) + WriteMetas(metas[1..])
  }

  function MetaList(m: Dict<MetaValue>): seq<Meta> {
    seq(|m|, i requires 0 <= i < |m| => Meta(m[i].0, m[i].1))
  }

  function WriteGrammar(s: Style, g: Grammar): seq<Token> {
    WriteMetas(MetaList(g.metas)) + (WriteRules(s, Values(g.rules)) + [Token(EndMarker, "")])
  }

  // What can be written

  predicate Writable(s: Style, x: Item)
    decreases x
  {
    match x
    case NameLeaf(v) => Identifier(v)
    case StringLeaf(v) => Quoted(v)
    case Group(r) => WritableRhs(s, r)
    case RhsItem(_) => false
    case Opt(RhsItem(r)) => WritableRhs(s, r)
    case Opt(n) => IsAtom(n) && Writable(s, n)
    case Repeat0(n) => IsAtom(n) && Writable(s, n)
    case Repeat1(n) => IsAtom(n) && Writable(s, n)
    case Gather(separator, n) => IsAtom(separator) && Writable(s, separator) && IsAtom(n) && Writable(s, n)
    case Forced(n) => IsAtom(n) && Writable(s, n)
    case PositiveLookahead(n) => IsAtom(n) && Writable(s, n)
    case NegativeLookahead(n) => IsAtom(n) && Writable(s, n)
    case Cut => true
  }

  predicate WritableRhs(s: Style, r: Rhs)
    decreases r
  {
    r.alts != [] && forall a :: a in r.alts ==> WritableAlt(s, a)
  }

  predicate WritableAlt(s: Style, a: Alt)
    decreases a
  {
    && a.items != [] && (a.action.Some? ==> Spelled(s, a.action.value))
    && forall n :: n in a.items ==> WritableNamedItem(s, n)
  }

  /** Lookaheads, forced atoms and cuts have no name, and only a named item has a type. */
  predicate WritableNamedItem(s: Style, n: NamedItem)
    decreases n
  {
    && Writable(s, n.item)
    && (n.name.Some? ==>
          && Identifier(n.name.value)
          && !n.item.Forced? && !n.item.PositiveLookahead? && !n.item.NegativeLookahead? && !n.item.Cut?)
    && (n.annotation.Some? ==> n.name.Some? && Spelled(s, n.annotation.value))
  }

  /** The numbers are positive and make up the alternatives. */
  predicate Fits(lines: seq<nat>, n: nat)
    decreases |lines|
  {
    if lines == [] then n == 0 else 0 < lines[0] <= n && Fits(lines[1..], n - lines[0])
  }

  predicate WritableRule(s: Style, r: Rule) {
    var l := LayoutOf(s, r);
    && Identifier(r.name) && WritableRhs(s, r.rhs) && (r.annotation.Some? ==> Spelled(s, r.annotation.value))
    && l.head <= |r.rhs.alts| && Fits(l.lines, |r.rhs.alts| - l.head)
  }

  predicate WritableMeta(m: Meta) {
    && Identifier(m.name)
    && (m.value.NameValue? ==> Identifier(m.value.text))
    && (m.value.LiteralValue? ==> Quoted(m.value.literal))
  }

  /** A grammar with at least one rule, as its constructor builds it. */
  predicate WritableGrammar(s: Style, g: Grammar) {
    && g.rules != []
    && (forall i :: 0 <= i < |g.rules| ==> g.rules[i].0 == g.rules[i].1.name && WritableRule(s, g.rules[i].1))
    && (forall i, j :: 0 <= i < j < |g.rules| ==> g.rules[i].0 != g.rules[j].0)
    && (forall i :: 0 <= i < |g.metas| ==> WritableMeta(Meta(g.metas[i].0, g.metas[i].1)))
    && (forall i, j :: 0 <= i < j < |g.metas| ==> g.metas[i].0 != g.metas[j].0)
  }

  // What is written and not read

  /** On one line, the rule starts with the words `NewLine Indent |`, which `expect` takes for layout. */
  predicate LooksLikeABlock(s: Style, r: Rule) {
    LayoutOf(s, r).lines == [] && |r.rhs.alts| > 1 && r.rhs.alts[0] == Alt([Leaf("NewLine"), Leaf("Indent")], None)
  }

  /** Such a rule stands before a rule named `Dedent`. */
  predicate RulesClash(s: Style, rules: seq<Rule>) {
    exists k :: 0 <= k < |rules| - 1 && LooksLikeABlock(s, rules[k]) && rules[k + 1].name == "Dedent"
  }

  /** A meta has the name `NewLine` for its value, which is taken for the end of its line. */
  predicate MetasClash(metas: seq<Meta>) {
    exists m :: m in metas && m.value == NameValue("NewLine")
  }
}
