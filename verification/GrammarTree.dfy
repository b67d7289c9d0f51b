/**
 The grammar tree of Grammar.php, the tokens it is read from, and the ordered
 maps its constructor builds.
 */
module GrammarTree {
  import opened Wrappers

  // The token types that GrammarTokenizer emits.
  datatype TokenType =
    | EndMarker | Name | Number | String | NewLine | Indent | Dedent
    | Op | GrammarAction | Comment | ContinuedNewLine | ErrorMarker

  datatype Token = Token(kind: TokenType, value: string)

  /** The name of an enum case, as PHP's `->name` gives it. */
  function TypeName(kind: TokenType): string {
    match kind
    case EndMarker => "EndMarker"
    case Name => "Name"
    case Number => "Number"
    case String => "String"
    case NewLine => "NewLine"
    case Indent => "Indent"
    case Dedent => "Dedent"
    case Op => "Op"
    case GrammarAction => "GrammarAction"
    case Comment => "Comment"
    case ContinuedNewLine => "ContinuedNewLine"
    case ErrorMarker => "ErrorMarker"
  }

  datatype Item =
    | NameLeaf(value: string)
    | StringLeaf(value: string)
    | Group(rhs: Rhs)
    | RhsItem(rhs: Rhs)
    | Opt(node: Item)
    | Repeat0(node: Item)
    | Repeat1(node: Item)
    | Gather(separator: Item, node: Item)
    | Forced(node: Item)
    | PositiveLookahead(node: Item)
    | NegativeLookahead(node: Item)
    | Cut

  datatype Rhs = Rhs(alts: seq<Alt>)

  datatype Alt = Alt(items: seq<NamedItem>, action: Option<string>)

  datatype NamedItem = NamedItem(name: Option<string>, item: Item, annotation: Option<string>)

  datatype Rule = Rule(name: string, annotation: Option<string>, rhs: Rhs)

  datatype RuleName = RuleName(name: string, annotation: Option<string>)

  // The value of a meta: absent, the text of a name, or a string literal that
  // Peg::literalEval would evaluate.
  datatype MetaValue = NoValue | NameValue(text: string) | LiteralValue(literal: string)

  datatype Meta = Meta(name: string, value: MetaValue)

  datatype Grammar = Grammar(rules: Dict<Rule>, metas: Dict<MetaValue>)

  function RuleDict(rules: seq<Rule>): Dict<Rule> {
    if rules == [] then []
    else var last := rules[|rules| - 1]; Put(RuleDict(rules[..|rules| - 1]), last.name, last)
  }

  function MetaDict(metas: seq<Meta>): Dict<MetaValue> {
    if metas == [] then []
    else var last := metas[|metas| - 1]; Put(MetaDict(metas[..|metas| - 1]), last.name, last.value)
  }

  /** The constructor of Grammar: later rules and metas replace earlier ones of the same name. */
  function MkGrammar(rules: seq<Rule>, metas: seq<Meta>): Grammar {
    Grammar(RuleDict(rules), MetaDict(metas))
  }
}
