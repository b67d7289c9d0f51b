/**
 Parsing what was printed: the tokens of a canonical grammar are read back as
 that grammar, whether its rules are printed on one line or over several.
 */
module GrammarRoundTrip {
  import opened Wrappers
  import opened GrammarTree
  import opened GrammarDescent
  import opened GrammarPrinter
  import opened GrammarWriting
  import opened GrammarBrackets
  import opened GrammarReading

  // Printing is a way of writing.

  /** One alternative on each line. */
  function Singles(n: nat): (lines: seq<nat>) {
    seq(n, i => 1)
  }

  /** Short rules are printed on one line, and others with each alternative on a line of its own. */
  function PrintLayout(r: Rule): Layout {
    if OneLine(r) then Layout(|r.rhs.alts|, []) else Layout(0, Singles(|r.rhs.alts|))
  }

  function PrintStyle(rules: seq<Rule>): Style {
    Style(map[], {}, map r | r in rules :: PrintLayout(r))
  }

  lemma {:induction false} SinglesFit(n: nat)
    ensures Fits(Singles(n), n)
    ensures n > 0 ==> Singles(n) != [] && Singles(n)[0] == 1 && Singles(n)[1..] == Singles(n - 1)
  {
    if n > 0 {
      SinglesFit(n - 1);
      assert Singles(n)[1..] == Singles(n - 1);
    }
  }

  lemma {:induction false} CanonicalItem(s: Style, x: Item)
    requires Canonical(x)
    ensures Writable(s, x) && WriteItem(s, x) == ItemTokens(x)
    decreases x
  {
    match x
    case Group(r) => CanonicalAlts(s, r.alts);
    case Opt(n) =>
      if n.RhsItem? {
        CanonicalAlts(s, n.rhs.alts);
      } else {
        CanonicalItem(s, n);
      }
    case Gather(separator, n) =>
      CanonicalItem(s, separator);
      CanonicalItem(s, n);
    case PositiveLookahead(n) => CanonicalItem(s, n);
    case NegativeLookahead(n) => CanonicalItem(s, n);
    case _ =>
  }

  lemma {:induction false} CanonicalNamed(s: Style, n: NamedItem)
    requires CanonicalNamedItem(n)
    ensures WritableNamedItem(s, n) && WriteNamedItem(s, n) == NamedItemTokens(n)
    decreases n
  {
    CanonicalItem(s, n.item);
  }

  lemma {:induction false} CanonicalItems(s: Style, items: seq<NamedItem>)
    requires forall n :: n in items ==> CanonicalNamedItem(n)
    ensures WriteItems(s, items) == ItemsTokens(items) && forall n :: n in items ==> WritableNamedItem(s, n)
    decreases items
  {
    hide CanonicalNamedItem, WritableNamedItem, WriteNamedItem, NamedItemTokens;
    if items != [] {
      CanonicalNamed(s, items[0]);
      CanonicalItems(s, items[1..]);
      assert items == [items[0]] + items[1..];
    }
  }

  lemma {:induction false} EndItemIsWritable(s: Style)
    ensures WritableNamedItem(s, EndItem) && ItemsTokens([EndItem]) == [Dollar]
  {
    assert "EndMarker"[0] == 'E';
    assert forall c :: c in "EndMarker" ==> IsWordChar(c);
  }

  lemma {:induction false} CanonicalAltIs(s: Style, a: Alt)
    requires CanonicalAlt(a)
    ensures WritableAlt(s, a) && WriteAlt(s, a) == ItemsTokens(a.items)
    decreases a
  {
    hide Canonical, Writable, WriteItem, ItemTokens, WriteItems, ItemsTokens;
    var last := |a.items| - 1;
    EndItemIsWritable(s);
    if a.items[last] == EndItem {
      assert a.items == Body(a) + [EndItem];
      ItemsTokensConcat(Body(a), [EndItem]);
    }
    CanonicalItems(s, Body(a));
  }

  lemma {:induction false} CanonicalAlts(s: Style, alts: seq<Alt>)
    requires forall a :: a in alts ==> CanonicalAlt(a)
    ensures WriteAlts(s, alts) == AltsTokens(alts) && forall a :: a in alts ==> WritableAlt(s, a)
    decreases alts
  {
    hide CanonicalAlt, WritableAlt, WriteAlt, ItemsTokens;
    if alts != [] {
      CanonicalAltIs(s, alts[0]);
      CanonicalAlts(s, alts[1..]);
      assert alts == [alts[0]] + alts[1..];
    }
  }

  lemma {:induction false} CanonicalLines(s: Style, alts: seq<Alt>)
    requires forall a :: a in alts ==> CanonicalAlt(a)
    ensures WriteLines(s, alts, Singles(|alts|)) == BlockTokens(alts)
    decreases |alts|
  {
    hide CanonicalAlt, WriteAlts, BlockTokens, AltsTokens;
    if alts != [] {
      SinglesFit(|alts|);
      CanonicalAlts(s, alts[..1]);
      CanonicalLines(s, alts[1..]);
      FirstLine(alts);
    } else {
      NoLines();
    }
  }

  lemma {:induction false} NoLines()
    ensures BlockTokens([]) == []
  {
  }

  lemma {:induction false} HeadOfCanonical(s: Style, r: Rule)
    requires r.annotation == None && s.memo == {}
    ensures WriteHead(s, r) == [Token(Name, r.name), Punct(":")]
  {
  }

  lemma {:induction false} CanonicalRuleIs(s: Style, r: Rule)
    requires CanonicalRule(r) && s.memo == {} && LayoutOf(s, r) == PrintLayout(r)
    ensures WritableRule(s, r) && WriteRule(s, r) == RuleTokens(r)
    ensures LooksLikeABlock(s, r) <==> LooksLikeBlock(r)
  {
    hide CanonicalAlt, WritableAlt, WriteAlts, BlockTokens, AltsTokens, OneLine, WriteLines, Singles, Identifier;
    var alts := r.rhs.alts;
    HeadOfCanonical(s, r);
    CanonicalRhsParts(r.rhs);
    CanonicalAlts(s, alts);
    CanonicalLines(s, alts);
    SinglesFit(|alts|);
    NoAltsWritten(s);
    assert alts[..|alts|] == alts && alts[0..] == alts && alts[..0] == [];
    CanonicalAction(alts[0]);
    if OneLine(r) {
      LineRuleTokens(r);
      assert WriteRule(s, r) == RuleTokens(r);
    } else {
      BlockRuleTokens(r);
      assert WriteRule(s, r) == RuleTokens(r);
    }
  }

  lemma {:induction false} CanonicalAction(a: Alt)
    requires CanonicalAlt(a)
    ensures a.action == None
  {
  }

  lemma {:induction false} CanonicalRules(s: Style, rules: seq<Rule>)
    requires s.memo == {} && forall r :: r in rules ==> CanonicalRule(r) && LayoutOf(s, r) == PrintLayout(r)
    ensures WriteRules(s, rules) == RulesTokens(rules) && forall r :: r in rules ==> WritableRule(s, r)
    ensures RulesClash(s, rules) <==> Clash(rules)
    decreases |rules|
  {
    hide CanonicalRule, WritableRule, WriteRule, RuleTokens, PrintLayout, LayoutOf, LooksLikeABlock, LooksLikeBlock;
    forall r | r in rules
      ensures WritableRule(s, r) && WriteRule(s, r) == RuleTokens(r) && (LooksLikeABlock(s, r) <==> LooksLikeBlock(r))
    {
      CanonicalRuleIs(s, r);
    }
    if rules != [] {
      CanonicalRules(s, rules[1..]);
    }
  }

  /** The printer writes a canonical grammar in a style of its own. */
  lemma {:induction false} PrintingIsWriting(g: Grammar)
    requires CanonicalGrammar(g)
    ensures var s := PrintStyle(Values(g.rules));
            && WritableGrammar(s, g) && WriteGrammar(s, g) == GrammarTokens(g)
            && (RulesClash(s, Values(g.rules)) <==> Clash(Values(g.rules)))
            && !MetasClash(MetaList(g.metas))
  {
    hide CanonicalRule, WritableRule, WriteRules, RulesTokens, RulesClash, Clash, PrintLayout;
    var rules := Values(g.rules);
    RulesOfCanonical(g);
    CanonicalRules(PrintStyle(rules), rules);
    assert forall i :: 0 <= i < |g.rules| ==> g.rules[i].1 == rules[i] && rules[i] in rules;
  }

  /**
   Printer and parser undo each other: the tokens of a canonical grammar are
   parsed back to that grammar, and all of them are used. The one exception is
   a rule that begins with the words `NewLine Indent |`, stands on one line and
   is followed by a rule named `Dedent`: then the parser fails.
   */
  lemma {:induction false} ParsingUndoesPrinting(g: Grammar)
    requires CanonicalGrammar(g)
    ensures var ts := GrammarTokens(g);
            Start(ts, 0) == if Clash(Values(g.rules)) then Fail else Ok(g, |ts|)
  {
    hide Start, CanonicalGrammar, WritableGrammar, WriteGrammar, GrammarTokens, Clash, RulesClash, MetasClash;
    PrintingIsWriting(g);
    ReadingUndoesWriting(PrintStyle(Values(g.rules)), g);
  }

  const BlockRuleWords := [Leaf("NewLine"), Leaf("Indent")]
  const OneName := Alt([Leaf("x")], None)
  const Lookalike := Rule("a", None, Rhs([Alt(BlockRuleWords, None), OneName]))
  const DedentRule := Rule("Dedent", None, Rhs([OneName]))
  const ClashingGrammar := Grammar([("a", Lookalike), ("Dedent", DedentRule)], [])

  lemma {:induction false} WordsAreCanonical()
    ensures CanonicalNamedItem(Leaf("NewLine")) && CanonicalNamedItem(Leaf("Indent")) && CanonicalNamedItem(Leaf("x"))
    ensures CanonicalAlt(Alt(BlockRuleWords, None)) && CanonicalAlt(OneName)
  {
    assert "NewLine"[0] == 'N' && "Indent"[0] == 'I' && "x"[0] == 'x';
    assert Leaf("Indent") != EndItem && Leaf("x") != EndItem;
  }

  lemma {:induction false} LookalikeIsShort()
    ensures OneLine(Lookalike)
  {
    assert BlockRuleWords[1..] == [Leaf("Indent")] && BlockRuleWords[1..][1..] == [];
    assert OneName.items[1..] == [] && Core([]) == "";
    assert |Core([Leaf("Indent")])| == 7 && |Core(BlockRuleWords)| == 15 && |Core(OneName.items)| == 2;
    assert Lookalike.rhs.alts[1..] == [OneName];
    assert |AltText(Lookalike.rhs.alts[0])| == 14 && |AltsText([OneName])| == 1;
    assert |AltsText(Lookalike.rhs.alts)| == 18;
  }

  /** The exception is met: printed and parsed, `a: NewLine Indent | x` before `Dedent: x` is lost. */
  lemma {:induction false} AClashFails()
    ensures CanonicalGrammar(ClashingGrammar) && Clash(Values(ClashingGrammar.rules))
    ensures Start(GrammarTokens(ClashingGrammar), 0).Fail?
  {
    hide Start, CanonicalAlt, OneLine;
    var rules := Values(ClashingGrammar.rules);
    WordsAreCanonical();
    LookalikeIsShort();
    assert Identifier("a") && Identifier("Dedent") by {
      assert "a"[0] == 'a' && "Dedent"[0] == 'D';
    }
    assert CanonicalRule(Lookalike) && CanonicalRule(DedentRule);
    assert "a" != "Dedent" by {
      assert |"a"| != |"Dedent"|;
    }
    assert rules[0] == Lookalike && rules[0 + 1] == DedentRule;
    assert LooksLikeBlock(rules[0]);
    ParsingUndoesPrinting(ClashingGrammar);
  }

  lemma {:induction false} RulesOfCanonical(g: Grammar)
    requires CanonicalGrammar(g)
    ensures Values(g.rules) != [] && forall r :: r in Values(g.rules) ==> CanonicalRule(r)
  {
    hide CanonicalRule;
  }

  // Printed tokens, part by part

  lemma {:induction false} AtBetween(ts: Tokens, i: nat, a: seq<Token>, t: Token, b: seq<Token>, u: Token)
    requires At(ts, i, a + [t] + b + [u])
    ensures At(ts, i, a) && At(ts, i + |a| + 1, b)
    ensures i + |a| + 1 + |b| < |ts| && ts[i + |a|] == t && ts[i + |a| + 1 + |b|] == u
  {
    hide At;
    assert a + [t] + b + [u] == a + ([t] + (b + [u]));
    AtSplit(ts, i, a, [t] + (b + [u]));
    AtHead(ts, i + |a|, t, b + [u]);
    AtSplit(ts, i + |a| + 1, b, [u]);
    AtHead(ts, i + |a| + 1 + |b|, u, []);
  }

  lemma {:induction false} AtBetween0(ts: Tokens, i: nat, t: Token, a: seq<Token>, u: Token, b: seq<Token>)
    requires At(ts, i, [t] + a + [u] + b)
    ensures i + 1 + |a| < |ts| && ts[i] == t && ts[i + 1 + |a|] == u
    ensures At(ts, i + 1, a) && At(ts, i + |a| + 2, b)
  {
    hide At;
    assert [t] + a + [u] + b == [t] + (a + ([u] + b));
    AtHead(ts, i, t, a + ([u] + b));
    AtSplit(ts, i + 1, a, [u] + b);
    AtHead(ts, i + 1 + |a|, u, b);
  }

  lemma {:induction false} ItemsTokensOf(items: seq<NamedItem>)
    ensures items == [] ==> ItemsTokens(items) == []
    ensures items != [] ==> ItemsTokens(items) == NamedItemTokens(items[0]) + ItemsTokens(items[1..])
  {
  }

  lemma {:induction false} ItemsTokensConcat(a: seq<NamedItem>, b: seq<NamedItem>)
    ensures ItemsTokens(a + b) == ItemsTokens(a) + ItemsTokens(b)
  {
    hide ItemsTokens, NamedItemTokens;
    ItemsTokensOf(a);
    if a == [] {
      assert a + b == b;
    } else {
      ItemsTokensOf(a + b);
      ItemsTokensConcat(a[1..], b);
      assert (a + b)[1..] == a[1..] + b;
    }
  }

  lemma {:induction false} AltsTokensSplit(alts: seq<Alt>)
    requires alts != []
    ensures |alts| == 1 ==> AltsTokens(alts) == ItemsTokens(alts[0].items)
    ensures |alts| > 1 ==> AltsTokens(alts) == ItemsTokens(alts[0].items) + ([Punct("|")] + AltsTokens(alts[1..]))
  {
  }

  lemma {:induction false} GatherTokens(s: Item, n: Item)
    ensures ItemTokens(Gather(s, n)) == ItemTokens(s) + [Punct(".")] + ItemTokens(n) + [Punct("+")]
  {
  }

  lemma {:induction false} LookaheadTokens(x: Item)
    ensures x.PositiveLookahead? ==> ItemTokens(x) == [Punct("&")] + ItemTokens(x.node)
    ensures x.NegativeLookahead? ==> ItemTokens(x) == [Punct("!")] + ItemTokens(x.node)
    ensures x.Cut? ==> ItemTokens(x) == [Punct("~")] + []
  {
  }

  lemma {:induction false} FirstLine(alts: seq<Alt>)
    requires alts != []
    ensures BlockTokens(alts) == [Punct("|")] + AltsTokens(alts[..1]) + [LineEnd] + BlockTokens(alts[1..])
    ensures |alts| == 1 ==> BlockTokens(alts[1..]) == []
  {
    assert alts[..1] == [alts[0]] && [alts[0]][1..] == [];
  }

  lemma {:induction false} BlockRuleTokens(r: Rule)
    requires !OneLine(r)
    ensures RuleTokens(r) == [Token(Name, r.name), Punct(":")] + [LineEnd, Token(Indent, "    ")]
                             + BlockTokens(r.rhs.alts) + [Token(Dedent, "")]
    ensures |RuleTokens(r)| == 5 + |BlockTokens(r.rhs.alts)|
  {
    hide OneLine, BlockTokens;
  }

  lemma {:induction false} LineRuleTokens(r: Rule)
    requires OneLine(r)
    ensures RuleTokens(r) == [Token(Name, r.name), Punct(":")] + AltsTokens(r.rhs.alts) + [LineEnd]
    ensures |RuleTokens(r)| == 3 + |AltsTokens(r.rhs.alts)|
  {
    hide OneLine, AltsTokens;
  }

  lemma {:induction false} AtBlockRule(ts: Tokens, i: nat, name: string, block: seq<Token>)
    requires At(ts, i, [Token(Name, name), Punct(":")] + [LineEnd, Token(Indent, "    ")] + block + [Token(Dedent, "")])
    ensures At(ts, i + 4, block) && i + 4 + |block| < |ts|
    ensures ts[i] == Token(Name, name) && ts[i + 1] == Punct(":")
    ensures ts[i + 2] == LineEnd && ts[i + 3] == Token(Indent, "    ") && ts[i + 4 + |block|] == Token(Dedent, "")
  {
    var head := [Token(Name, name), Punct(":")] + [LineEnd, Token(Indent, "    ")];
    var tail := block + [Token(Dedent, "")];
    assert head + block + [Token(Dedent, "")] == head + tail;
    AtSplit(ts, i, head, tail);
    AtSplit(ts, i + 4, block, [Token(Dedent, "")]);
    assert ts[i] == ts[i..i + 4][0] && ts[i + 1] == ts[i..i + 4][1];
    assert ts[i + 2] == ts[i..i + 4][2] && ts[i + 3] == ts[i..i + 4][3];
    AtHead(ts, i + 4 + |block|, Token(Dedent, ""), []);
  }

  lemma {:induction false} AtLineRule(ts: Tokens, i: nat, name: string, alts: seq<Token>)
    requires At(ts, i, [Token(Name, name), Punct(":")] + alts + [LineEnd])
    ensures At(ts, i + 2, alts) && i + 2 + |alts| < |ts|
    ensures ts[i] == Token(Name, name) && ts[i + 1] == Punct(":") && ts[i + 2 + |alts|] == LineEnd
  {
    var head := [Token(Name, name), Punct(":")];
    assert head + alts + [LineEnd] == head + (alts + [LineEnd]);
    AtSplit(ts, i, head, alts + [LineEnd]);
    AtSplit(ts, i + 2, alts, [LineEnd]);
    assert ts[i] == ts[i..i + 2][0] && ts[i + 1] == ts[i..i + 2][1];
    AtHead(ts, i + 2 + |alts|, LineEnd, []);
  }

  lemma {:induction false} CanonicalRhsParts(r: Rhs)
    requires CanonicalRhs(r)
    ensures r.alts != [] && forall a :: a in r.alts ==> CanonicalAlt(a)
  {
  }

  lemma {:induction false} NoRulesTokens()
    ensures RulesTokens([]) == []
  {
  }

  lemma {:induction false} FirstOfRules(rules: seq<Rule>)
    requires rules != []
    ensures RulesTokens(rules) == RuleTokens(rules[0]) + RulesTokens(rules[1..])
  {
  }

  /** The tokens of a rule that looks like a block, where its alternatives start. */
  lemma {:induction false} LookalikeTokens(ts: Tokens, h: nat, alts: seq<Alt>)
    requires |alts| > 1 && alts[0].items == [Leaf("NewLine"), Leaf("Indent")]
    requires At(ts, h, AltsTokens(alts))
    ensures h + 3 <= |ts| && ts[h] == Token(Name, "NewLine") && ts[h + 1] == Token(Name, "Indent")
    ensures ts[h + 2] == Punct("|") && At(ts, h + 3, AltsTokens(alts[1..]))
    ensures |AltsTokens(alts)| == 3 + |AltsTokens(alts[1..])|
  {
    var a, b := Token(Name, "NewLine"), Token(Name, "Indent");
    var items := alts[0].items;
    assert items[1..] == [Leaf("Indent")] && items[1..][1..] == [];
    assert ItemsTokens(items[1..]) == [b];
    assert ItemsTokens(items) == [a] + [b];
    var rest := AltsTokens(alts[1..]);
    assert AltsTokens(alts) == [a] + ([b] + ([Punct("|")] + rest));
    AtHead(ts, h, a, [b] + ([Punct("|")] + rest));
    AtHead(ts, h + 1, b, [Punct("|")] + rest);
    AtHead(ts, h + 2, Punct("|"), rest);
  }

  /** No printed token opens a binding, an action or a meta, or repeats an atom; Tokenizer lets all of them through. */
  predicate Plain(ts: Tokens) {
    forall i :: 0 <= i < |ts| ==> PlainToken(ts[i])
  }

  predicate PlainToken(t: Token) {
    && t.value != "=" && t.value != "{" && t.value != "@" && t.value != "*"
    && t.kind != Comment && t.kind != ContinuedNewLine && (t.kind == ErrorMarker ==> t == Dollar)
  }

  lemma {:induction false} NothingExtra(ts: Tokens, i: nat)
    requires Plain(ts) && i <= |ts|
    ensures TypedBinding(ts, i).Fail? && PlainBinding(ts, i).Fail? && Action(ts, i).Fail?
  {
    hide Annotation, TargetAtoms;
  }

  lemma {:induction false} ConcatPlain(a: Tokens, b: Tokens)
    requires Plain(a) && Plain(b)
    ensures Plain(a + b)
  {
  }

  lemma {:induction false} ItemPlain(x: Item)
    requires Canonical(x)
    ensures Plain(ItemTokens(x))
    decreases x
  {
    match x
    case NameLeaf(v) => assert v[0] in v;
    case StringLeaf(v) =>
    case Group(r) => AltsPlain(r.alts);
    case Opt(n) =>
      if n.RhsItem? {
        AltsPlain(n.rhs.alts);
      } else {
        ItemPlain(n);
      }
    case Gather(s, n) =>
      ItemPlain(s);
      ItemPlain(n);
    case PositiveLookahead(n) => ItemPlain(n);
    case NegativeLookahead(n) => ItemPlain(n);
    case Cut =>
  }

  lemma {:induction false} AltsPlain(alts: seq<Alt>)
    requires forall a :: a in alts ==> CanonicalAlt(a)
    ensures Plain(AltsTokens(alts))
    decreases alts
  {
    if alts != [] {
      AltPlain(alts[0]);
      AltsPlain(alts[1..]);
    }
  }

  lemma {:induction false} AltPlain(a: Alt)
    requires CanonicalAlt(a)
    ensures Plain(ItemsTokens(a.items))
    decreases a
  {
    ItemsPlain(a.items);
  }

  lemma {:induction false} ItemsPlain(items: seq<NamedItem>)
    requires forall n :: n in items ==> n == EndItem || CanonicalNamedItem(n)
    ensures Plain(ItemsTokens(items))
    decreases items
  {
    if items != [] {
      NamedItemPlain(items[0]);
      ItemsPlain(items[1..]);
    }
  }

  lemma {:induction false} NamedItemPlain(n: NamedItem)
    requires n == EndItem || CanonicalNamedItem(n)
    ensures Plain(NamedItemTokens(n))
    decreases n
  {
    if n == EndItem {
      assert NamedItemTokens(n) == [Dollar];
    } else {
      ItemPlain(n.item);
    }
  }

  lemma {:induction false} BlockPlain(alts: seq<Alt>)
    requires forall a :: a in alts ==> CanonicalAlt(a)
    ensures Plain(BlockTokens(alts))
  {
    if alts != [] {
      AltPlain(alts[0]);
      BlockPlain(alts[1..]);
    }
  }

  lemma {:induction false} RulesPlain(rules: seq<Rule>)
    requires forall r :: r in rules ==> CanonicalRule(r)
    ensures Plain(RulesTokens(rules))
  {
    hide RuleTokens, CanonicalRule;
    if rules != [] {
      assert CanonicalRule(rules[0]);
      RulePlain(rules[0]);
      RulesPlain(rules[1..]);
      ConcatPlain(RuleTokens(rules[0]), RulesTokens(rules[1..]));
    }
  }

  lemma {:induction false} RulePlain(r: Rule)
    requires CanonicalRule(r)
    ensures Plain(RuleTokens(r))
  {
    assert r.name[0] in r.name;
    CanonicalRhsParts(r.rhs);
    AltsPlain(r.rhs.alts);
    BlockPlain(r.rhs.alts);
  }

  lemma {:induction false} MarkerPlain()
    ensures Plain([Token(EndMarker, "")]) && Plain([EndWord])
  {
  }

  lemma {:induction false} HeadBack(ts: Tokens, i: nat, name: string)
    requires Identifier(name) && i + 1 < |ts| && ts[i] == Token(Name, name) && ts[i + 1] == Punct(":")
    ensures RuleHead(ts, i) == Ok(RuleName(name, None), i + 2)
  {
    hide TargetAtoms;
    assert Annotation(ts, i + 1).Fail?;
    assert MemoFlag(ts, i + 1).Fail?;
  }

  /** What stands after a printed rule: the end marker or its name, or the head of the next rule. */
  predicate AfterRule(ts: Tokens, j: nat) {
    || (j == |ts| - 1 && ts[j] == Token(EndMarker, ""))
    || (j < |ts| && ts[j] == EndWord)
    || (j + 1 < |ts| && ts[j].kind == Name && Identifier(ts[j].value) && ts[j + 1] == Punct(":"))
  }

  /** Rules are printed at the index, and then comes the end marker that closes the list, or its name. */
  predicate RulesThenEnd(ts: Tokens, i: nat, rules: seq<Rule>, last: Token) {
    && At(ts, i, RulesTokens(rules) + [last])
    && (last == EndWord || (last == Token(EndMarker, "") && i + |RulesTokens(rules)| == |ts| - 1))
  }

  // The end of the input

  /** A token after which a rule may end: a line end or a dedent, or a word that is taken for one. */
  predicate ClosesRule(ts: Tokens, k: nat)
    requires k <= |ts|
  {
    Expect(ts, k, "NewLine").Ok? || Expect(ts, k, "Dedent").Ok?
  }

  lemma {:induction false} RuleEnds(ts: Tokens, i: nat)
    requires i <= |ts|
    ensures RuleAt(ts, i).Ok? ==> i + 2 < RuleAt(ts, i).end && ClosesRule(ts, RuleAt(ts, i).end - 1)
  {
    hide RuleHead, Alts, MoreAlts, Expect;
    HeadIsTwoTokens(ts, i);
    assert LongRule(ts, i).Ok? ==> Expect(ts, LongRule(ts, i).end - 1, "Dedent").Ok?;
    assert BlockRule(ts, i).Ok? ==> Expect(ts, BlockRule(ts, i).end - 1, "Dedent").Ok?;
    assert LineRule(ts, i).Ok? ==> Expect(ts, LineRule(ts, i).end - 1, "NewLine").Ok?;
  }

  lemma {:induction false} HeadIsTwoTokens(ts: Tokens, i: nat)
    requires i <= |ts|
    ensures RuleHead(ts, i).Ok? ==> i + 2 <= RuleHead(ts, i).end
  {
    hide Annotation, MemoFlag, Expect, OfType;
  }

  lemma {:induction false} RulesEnd(ts: Tokens, i: nat)
    requires i <= |ts|
    ensures Rules(ts, i).Ok? ==> ClosesRule(ts, Rules(ts, i).end - 1)
    decreases |ts| - i
  {
    hide RuleAt, ClosesRule;
    RuleEnds(ts, i);
    if RuleAt(ts, i).Ok? {
      RulesEnd(ts, RuleAt(ts, i).end);
    }
  }

  lemma {:induction false} GrammarEnds(ts: Tokens, i: nat)
    requires i <= |ts|
    ensures GrammarAt(ts, i).Ok? ==> ClosesRule(ts, GrammarAt(ts, i).end - 1)
  {
    hide Rules, Metas, ClosesRule;
    RulesEnd(ts, i);
    if Metas(ts, i).Ok? {
      RulesEnd(ts, Metas(ts, i).end);
    }
  }

  /** No token before the last that is taken for the end marker stands where a rule may have ended. */
  predicate NoEarlyEnd(ts: Tokens) {
    forall k :: 0 < k < |ts| - 1 && Expect(ts, k, "EndMarker").Ok? ==> !ClosesRule(ts, k - 1)
  }

  /** `start` takes the whole input when the end marker can only be matched after a rule where the list ends. */
  lemma {:induction false} StartTakesTheWholeInput(ts: Tokens, i: nat)
    requires EndsInMarker(ts) && i <= |ts| && NoEarlyEnd(ts)
    ensures Start(ts, i).Ok? ==> Start(ts, i).end == |ts|
  {
    hide GrammarAt, Expect, ClosesRule;
    GrammarEnds(ts, i);
    var g := GrammarAt(ts, i);
    if g.Ok? && g.end < |ts| - 1 {
      assert Expect(ts, g.end, "EndMarker").Fail?;
    }
  }
}
