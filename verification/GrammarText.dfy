/**
 From the text of a printed grammar to its tokens: the characters of a line are
 cut into lexemes, and the tokenizer turns the lines into tokens. The scan here
 counts characters; GrammarOffsets has the offsets of the source.
 */
module GrammarText {
  import opened Wrappers
  import opened GrammarTree
  import opened GrammarDescent
  import opened GrammarPrinter
  import opened GrammarTokenizer
  import opened GrammarRoundTrip

  // Lexemes of a line

  predicate IsBlank(c: char) {
    c == ' ' || c == '\t' || c == 12 as char
  }

  predicate IsQuote(c: char) {
    c == '\'' || c == '\"'
  }

  function WordLength(s: string): (n: nat)
    ensures n <= |s| && (n < |s| ==> !IsWordChar(s[n]))
  {
    if s == "" || !IsWordChar(s[0]) then 0 else 1 + WordLength(s[1..])
  }

  /** The end of a literal without escapes whose text goes on at `i`; 0 if the line leaves it open. */
  function LiteralEnd(s: string, i: nat, quote: char): (n: nat)
    ensures n != 0 ==> i < n <= |s|
    decreases |s| - i
  {
    if i >= |s| || s[i] == '\\' || s[i] == '\n' then 0
    else if s[i] == quote then i + 1
    else LiteralEnd(s, i + 1, quote)
  }

  const Operators3: set<string> := {"**=", "...", "//=", "<<=", ">>="}

  const Operators2: set<string> := {
    "!=", "%=", "&=", "**", "*=", "+=", "-=", "->", "//", "/=", ":=", "<<", "<=", "==", ">=", ">>", "@=", "^=", "|=" }

  const Operators1: set<char> := {
    '?', '!', '%', '&', '(', ')', '*', '+', ',', '-', '.', '/', ':', ';', '<', '=', '>', '@', '[', ']', '^', '{',
    '|', '}', '~' }

  /** The longest operator at the start of the text. */
  function OperatorLength(s: string): (n: nat)
    ensures n <= |s|
  {
    if |s| >= 3 && s[..3] in Operators3 then 3
    else if |s| >= 2 && s[..2] in Operators2 then 2
    else if |s| >= 1 && s[0] in Operators1 then 1
    else 0
  }

  function Cons(t: Token, rest: Option<seq<Lexeme>>): Option<seq<Lexeme>> {
    if rest.Some? then Some([Simple(t)] + rest.value) else None
  }

  /**
   The lexemes of a line; None if the line holds a number, a comment, a prefixed,
   escaped, open or triple-quoted string, a backslash or an action. A blank that
   no token follows gives an error marker that Tokenizer drops, and gives none here.
   */
  function Scan(s: string): Option<seq<Lexeme>>
    decreases |s|
  {
    if s == "" then Some([])
    else if IsBlank(s[0]) then Scan(s[1..])
    else if s[0] == '\n' then
      var rest := Scan(s[1..]);
      if rest.Some? then Some([Break("\n")] + rest.value) else None
    else if IsWordChar(s[0]) then
      var n := WordLength(s);
      if '0' <= s[0] <= '9' || (n < |s| && IsQuote(s[n])) then None
      else Cons(Token(Name, s[..n]), Scan(s[n..]))
    else if IsQuote(s[0]) then
      var n := LiteralEnd(s, 1, s[0]);
      if n == 0 || (n == 2 && |s| > 2 && s[2] == s[0]) then None
      else Cons(Token(String, s[..n]), Scan(s[n..]))
    else if s[0] == '$' then Cons(Dollar, Scan(s[1..]))
    else
      var n := OperatorLength(s);
      if n == 0 || s[0] == '{' then None else Cons(Token(Op, s[..n]), Scan(s[n..]))
  }

  function MarginLength(s: string): (n: nat)
    ensures n <= |s|
  {
    if s == "" || !IsBlank(s[0]) then 0 else 1 + MarginLength(s[1..])
  }

  function LineOf(text: string): Option<Line> {
    var n := MarginLength(text);
    var xs := Scan(text[n..]);
    if xs.Some? then Some(Line(text, text[..n], xs.value, None)) else None
  }

  function LineLength(text: string): (n: nat)
    requires text != ""
    ensures 0 < n <= |text|
  {
    if text[0] == '\n' || |text| == 1 then 1 else 1 + LineLength(text[1..])
  }

  /** fgets: the text is cut after each line feed. */
  function LinesOf(text: string): Option<seq<Line>>
    decreases |text|
  {
    if text == "" then Some([])
    else
      var n := LineLength(text);
      var first, rest := LineOf(text[..n]), LinesOf(text[n..]);
      if first.Some? && rest.Some? then Some([first.value] + rest.value) else None
  }

  // What the lines of a printed text scan to

  function Join(ts: seq<Token>, rest: Option<seq<Lexeme>>): Option<seq<Lexeme>> {
    if rest.Some? then Some(Plains(ts) + rest.value) else None
  }

  function Plains(ts: seq<Token>): (xs: seq<Lexeme>)
    ensures |xs| == |ts|
  {
    if ts == [] then [] else [Simple(ts[0])] + Plains(ts[1..])
  }

  lemma {:induction false} PlainsConcat(a: seq<Token>, b: seq<Token>)
    ensures Plains(a + b) == Plains(a) + Plains(b)
  {
    if a == [] {
      assert a + b == b;
    } else {
      PlainsConcat(a[1..], b);
      assert (a + b)[1..] == a[1..] + b;
      var x, rest := [Simple(a[0])], Plains(a[1..]);
      assert Plains(a + b) == x + Plains(a[1..] + b);
      assert x + rest + Plains(b) == x + (rest + Plains(b));
    }
  }

  lemma {:induction false} JoinJoin(a: seq<Token>, b: seq<Token>, rest: Option<seq<Lexeme>>)
    ensures Join(a, Join(b, rest)) == Join(a + b, rest)
  {
    PlainsConcat(a, b);
    if rest.Some? {
      assert Plains(a) + (Plains(b) + rest.value) == Plains(a) + Plains(b) + rest.value;
    }
  }

  lemma {:induction false} JoinOne(t: Token, rest: Option<seq<Lexeme>>)
    ensures Cons(t, rest) == Join([t], rest)
  {
    assert [t][1..] == [];
    assert Plains([t]) == [Simple(t)];
  }

  /** What may stand directly after an item. */
  predicate Delimits(rest: string) {
    rest == "" || rest[0] in {' ', ')', ']', '?', '.', '+', '\n'}
  }

  lemma {:induction false} WordLengthIs(v: string, rest: string)
    requires forall c :: c in v ==> IsWordChar(c)
    requires rest == "" || !IsWordChar(rest[0])
    ensures WordLength(v + rest) == |v|
  {
    if v == "" {
      assert v + rest == rest;
    } else {
      WordLengthIs(v[1..], rest);
      assert (v + rest)[1..] == v[1..] + rest;
    }
  }

  lemma {:induction false} ScanWord(v: string, rest: string)
    requires Identifier(v) && (rest == "" || (!IsWordChar(rest[0]) && !IsQuote(rest[0])))
    ensures Scan(v + rest) == Join([Token(Name, v)], Scan(rest))
  {
    WordLengthIs(v, rest);
    assert v[0] in v && (v + rest)[0] == v[0];
    assert (v + rest)[..|v|] == v && (v + rest)[|v|..] == rest;
    JoinOne(Token(Name, v), Scan(rest));
  }

  lemma {:induction false} LiteralEndIs(v: string, rest: string, i: nat)
    requires Literal(v) && 0 < i < |v|
    ensures LiteralEnd(v + rest, i, v[0]) == |v|
    decreases |v| - i
  {
    assert (v + rest)[i] == v[i];
    if i < |v| - 1 {
      LiteralEndIs(v, rest, i + 1);
    }
  }

  lemma {:induction false} ScanLiteral(v: string, rest: string)
    requires Literal(v) && (rest == "" || !IsQuote(rest[0]))
    ensures Scan(v + rest) == Join([Token(String, v)], Scan(rest))
  {
    var s := v + rest;
    LiteralEndIs(v, rest, 1);
    assert s[0] == v[0];
    assert s[..|v|] == v && s[|v|..] == rest;
    if |v| == 2 && |s| > 2 {
      assert s[2] == rest[0];
    }
    JoinOne(Token(String, v), Scan(rest));
  }

  lemma {:induction false} LongOperators(t: string)
    ensures t in Operators3 ==> t[0] in {'*', '/', '<', '>'} || t[1] == '.'
    ensures t in Operators2 ==> t[0] in {'%', '*', '-', '/', '<', '=', '>', '@', '^'} || t[1] == '='
    ensures t in Operators2 ==> t[0] !in {'(', ')', '[', ']', '?', '~', '.'}
    ensures t in Operators3 ==> t[0] !in {'(', ')', '[', ']', '?', '~', '+', '&', '!', '|', ':'}
  {
  }

  predicate Printed(c: char) {
    c in {'(', ')', '[', ']', '?', '~', '.', '+', '&', '!', '|', ':'}
  }

  /** An operator of the printer stands alone before `rest`. */
  predicate StandsAlone(c: char, rest: string) {
    Printed(c) && (c in {'(', ')', '[', ']', '?', '~'} || rest == "" || rest[0] != if c == '.' then '.' else '=')
  }

  lemma {:induction false} OperatorAlone(c: char, rest: string)
    requires StandsAlone(c, rest)
    ensures OperatorLength([c] + rest) == 1
  {
    hide Operators2, Operators3;
    var s := [c] + rest;
    assert c in Operators1;
    if |s| >= 2 {
      LongOperators(s[..2]);
      assert s[..2][0] == c && s[..2][1] == rest[0];
    }
    if |s| >= 3 {
      LongOperators(s[..3]);
      assert s[..3][0] == c && s[..3][1] == rest[0];
    }
  }

  lemma {:induction false} ScanPunct(c: char, rest: string)
    requires StandsAlone(c, rest)
    ensures Scan([c] + rest) == Join([Punct([c])], Scan(rest))
  {
    hide OperatorLength;
    var s := [c] + rest;
    OperatorAlone(c, rest);
    assert s[0] == c && s[1..] == rest && s[..1] == [c];
    JoinOne(Punct([c]), Scan(rest));
  }

  lemma {:induction false} JoinNone(rest: Option<seq<Lexeme>>)
    ensures Join([], rest) == rest
  {
    if rest.Some? {
      assert Plains([]) + rest.value == rest.value;
    }
  }

  // The texts below are written out so that each step cuts one lexeme off.

  lemma {:induction false} ScanAtom(x: Item, rest: string)
    requires IsAtom(x) && Canonical(x) && Delimits(rest)
    ensures Scan(ItemText(x) + rest) == Join(ItemTokens(x), Scan(rest))
    decreases x, 0
  {
    hide Scan, Identifier, Literal;
    match x
    case NameLeaf(v) => ScanWord(v, rest);
    case StringLeaf(v) => ScanLiteral(v, rest);
    case Group(r) =>
      ScanBracketed('(', r, ')', rest);
      assert ItemText(x) + rest == "(" + (AltsText(r.alts) + (")" + rest));
  }

  lemma {:induction false} ScanBracketed(open: char, r: Rhs, close: char, rest: string)
    requires (open == '(' && close == ')') || (open == '[' && close == ']')
    requires CanonicalRhs(r)
    ensures Scan([open] + (AltsText(r.alts) + ([close] + rest)))
         == Join([Punct([open])] + AltsTokens(r.alts) + [Punct([close])], Scan(rest))
    decreases r, 0
  {
    hide Scan, AltsText, AltsTokens;
    CanonicalRhsParts(r);
    var inner := AltsTokens(r.alts);
    ScanPunct(open, AltsText(r.alts) + ([close] + rest));
    ScanAlts(r.alts, [close] + rest);
    ScanPunct(close, rest);
    JoinJoin(inner, [Punct([close])], Scan(rest));
    JoinJoin([Punct([open])], inner + [Punct([close])], Scan(rest));
    assert [Punct([open])] + (inner + [Punct([close])]) == [Punct([open])] + inner + [Punct([close])];
  }

  lemma {:induction false} AtomStart(x: Item, rest: string)
    requires IsAtom(x) && Canonical(x)
    ensures ItemText(x) != "" && ItemText(x)[0] != '=' && ItemText(x)[0] != '.'
    ensures (ItemText(x) + rest)[0] == ItemText(x)[0]
  {
    match x
    case NameLeaf(v) => assert v[0] in v;
    case _ =>
  }

  lemma {:induction false} ScanItem(x: Item, rest: string)
    requires Canonical(x) && Delimits(rest)
    ensures Scan(ItemText(x) + rest) == Join(ItemTokens(x), Scan(rest))
    decreases x, 1
  {
    hide Scan, Join, Identifier, Literal;
    match x
    case Opt(n) =>
      if n.RhsItem? {
        assert ItemText(n) == AltsText(n.rhs.alts) && ItemTokens(n) == AltsTokens(n.rhs.alts);
        ScanBracketed('[', n.rhs, ']', rest);
        assert ItemText(x) + rest == "[" + (AltsText(n.rhs.alts) + ("]" + rest));
      } else {
        ScanMarked(n, rest);
      }
    case Gather(s, n) => ScanGather(s, n, rest);
    case PositiveLookahead(n) => ScanSigned('&', n, rest);
    case NegativeLookahead(n) => ScanSigned('!', n, rest);
    case Cut => ScanPunct('~', rest);
    case NameLeaf(_) | StringLeaf(_) | Group(_) => ScanAtom(x, rest);
  }

  lemma {:induction false} ScanMarked(n: Item, rest: string)
    requires IsAtom(n) && Canonical(n) && ' ' !in ItemText(n)
    ensures Scan(ItemText(Opt(n)) + rest) == Join(ItemTokens(Opt(n)), Scan(rest))
    decreases n, 1
  {
    hide Scan, Canonical;
    assert ItemText(Opt(n)) + rest == ItemText(n) + ("?" + rest);
    ScanAtom(n, "?" + rest);
    ScanPunct('?', rest);
    JoinJoin(ItemTokens(n), [Punct("?")], Scan(rest));
  }

  lemma {:induction false} ScanSigned(sign: char, n: Item, rest: string)
    requires sign in {'&', '!'} && IsAtom(n) && Canonical(n) && Delimits(rest)
    ensures Scan([sign] + ItemText(n) + rest) == Join([Punct([sign])] + ItemTokens(n), Scan(rest))
    decreases n, 1
  {
    hide Scan, Canonical;
    assert [sign] + ItemText(n) + rest == [sign] + (ItemText(n) + rest);
    AtomStart(n, rest);
    ScanPunct(sign, ItemText(n) + rest);
    ScanAtom(n, rest);
    JoinJoin([Punct([sign])], ItemTokens(n), Scan(rest));
  }

  lemma {:induction false} ScanGather(s: Item, n: Item, rest: string)
    requires IsAtom(s) && Canonical(s) && IsAtom(n) && Canonical(n) && Delimits(rest)
    ensures Scan(ItemText(Gather(s, n)) + rest) == Join(ItemTokens(Gather(s, n)), Scan(rest))
    decreases Gather(s, n), 0
  {
    hide Scan, Canonical;
    var a, b := ItemTokens(s), ItemTokens(n);
    var plus := "+" + rest;
    var tail := ItemText(n) + plus;
    assert ItemText(Gather(s, n)) + rest == ItemText(s) + ("." + tail);
    ScanAtom(s, "." + tail);
    AtomStart(n, plus);
    ScanPunct('.', tail);
    ScanAtom(n, plus);
    ScanPunct('+', rest);
    JoinJoin(b, [Punct("+")], Scan(rest));
    JoinJoin([Punct(".")], b + [Punct("+")], Scan(rest));
    JoinJoin(a, [Punct(".")] + (b + [Punct("+")]), Scan(rest));
    assert a + ([Punct(".")] + (b + [Punct("+")])) == a + [Punct(".")] + b + [Punct("+")];
  }

  lemma {:induction false} ScanNamedItem(n: NamedItem, rest: string)
    requires n == EndItem || CanonicalNamedItem(n)
    requires Delimits(rest)
    ensures Scan(NamedItemText(n) + rest) == Join(NamedItemTokens(n), Scan(rest))
    decreases n, 0
  {
    hide Canonical;
    if n == EndItem {
      assert ("$" + rest)[1..] == rest;
      JoinOne(Dollar, Scan(rest));
    } else {
      ScanItem(n.item, rest);
    }
  }

  lemma {:induction false} ScanBlank(rest: string)
    ensures Scan(" " + rest) == Scan(rest)
  {
    assert (" " + rest)[1..] == rest;
  }

  lemma {:induction false} ScanCore(items: seq<NamedItem>, rest: string)
    requires forall n :: n in items ==> n == EndItem || CanonicalNamedItem(n)
    requires Delimits(rest)
    ensures Scan(Core(items) + rest) == Join(ItemsTokens(items), Scan(rest))
    decreases items, 0
  {
    hide Scan, CanonicalNamedItem;
    if items == [] {
      assert Core(items) + rest == rest;
      JoinNone(Scan(rest));
    } else {
      var tail := Core(items[1..]) + rest;
      assert Core(items) + rest == " " + (NamedItemText(items[0]) + tail);
      ScanBlank(NamedItemText(items[0]) + tail);
      CoreDelimits(items[1..], rest);
      ScanNamedItem(items[0], tail);
      ScanCore(items[1..], rest);
      JoinJoin(NamedItemTokens(items[0]), ItemsTokens(items[1..]), Scan(rest));
    }
  }

  lemma {:induction false} CoreDelimits(items: seq<NamedItem>, rest: string)
    requires Delimits(rest)
    ensures Delimits(Core(items) + rest)
  {
  }

  lemma {:induction false} ScanAlt(a: Alt, rest: string)
    requires CanonicalAlt(a) && Delimits(rest)
    ensures Scan(AltText(a) + rest) == Join(ItemsTokens(a.items), Scan(rest))
    decreases a, 0
  {
    hide Scan, CanonicalNamedItem;
    ScanCore(a.items, rest);
    assert Core(a.items) == " " + AltText(a);
    assert Core(a.items) + rest == " " + (AltText(a) + rest);
    ScanBlank(AltText(a) + rest);
  }

  lemma {:induction false} ScanAlts(alts: seq<Alt>, rest: string)
    requires alts != [] && forall a :: a in alts ==> CanonicalAlt(a)
    requires Delimits(rest)
    ensures Scan(AltsText(alts) + rest) == Join(AltsTokens(alts), Scan(rest))
    decreases alts, 0
  {
    hide Scan, CanonicalAlt, AltText, ItemsTokens;
    if |alts| == 1 {
      ScanAlt(alts[0], rest);
    } else {
      var tail := AltsText(alts[1..]) + rest;
      assert AltsText(alts) + rest == AltText(alts[0]) + (" " + ("|" + (" " + tail)));
      ScanAlt(alts[0], " " + ("|" + (" " + tail)));
      ScanBlank("|" + (" " + tail));
      ScanPunct('|', " " + tail);
      ScanBlank(tail);
      ScanAlts(alts[1..], rest);
      var a, b := ItemsTokens(alts[0].items), AltsTokens(alts[1..]);
      JoinJoin([Punct("|")], b, Scan(rest));
      JoinJoin(a, [Punct("|")] + b, Scan(rest));
      assert a + ([Punct("|")] + b) == a + [Punct("|")] + b;
    }
  }

  // What the tokenizer makes of those lines

  function Depth(ts: seq<Token>): int {
    if ts == [] then 0 else LevelChange(ts[0]) + Depth(ts[1..])
  }

  lemma {:induction false} DepthConcat(a: seq<Token>, b: seq<Token>)
    ensures Depth(a + b) == Depth(a) + Depth(b)
  {
    if a == [] {
      assert a + b == b;
    } else {
      DepthConcat(a[1..], b);
      assert (a + b)[1..] == a[1..] + b;
    }
  }

  lemma {:induction false} DepthOne(t: Token)
    ensures Depth([t]) == LevelChange(t)
  {
    assert [t][1..] == [];
  }

  lemma {:induction false} DepthAround(a: Token, b: seq<Token>, c: Token)
    ensures Depth([a] + b + [c]) == LevelChange(a) + Depth(b) + LevelChange(c)
    ensures Depth([a] + b) == LevelChange(a) + Depth(b)
    ensures Depth(b + [c]) == Depth(b) + LevelChange(c)
  {
    DepthConcat([a] + b, [c]);
    DepthConcat([a], b);
    DepthConcat(b, [c]);
    DepthOne(a);
    DepthOne(c);
  }

  lemma {:induction false} GatherDepth(a: seq<Token>, b: seq<Token>)
    ensures Depth(a + [Punct(".")] + b + [Punct("+")]) == Depth(a) + Depth(b)
  {
    DepthAround(Punct("."), a, Punct("."));
    DepthConcat(a + [Punct(".")], b);
    DepthAround(Punct("+"), a + [Punct(".")] + b, Punct("+"));
  }

  lemma {:induction false} ItemDepth(x: Item)
    requires Canonical(x)
    ensures Depth(ItemTokens(x)) == 0
    decreases x
  {
    match x
    case NameLeaf(v) => DepthOne(Token(Name, v));
    case StringLeaf(v) => DepthOne(Token(String, v));
    case Group(r) =>
      AltsDepth(r.alts);
      DepthAround(Punct("("), AltsTokens(r.alts), Punct(")"));
    case Opt(n) =>
      if n.RhsItem? {
        AltsDepth(n.rhs.alts);
        DepthAround(Punct("["), AltsTokens(n.rhs.alts), Punct("]"));
      } else {
        ItemDepth(n);
        DepthAround(Punct("?"), ItemTokens(n), Punct("?"));
      }
    case Gather(s, n) =>
      ItemDepth(s);
      ItemDepth(n);
      GatherDepth(ItemTokens(s), ItemTokens(n));
    case PositiveLookahead(n) =>
      ItemDepth(n);
      DepthAround(Punct("&"), ItemTokens(n), Punct("&"));
    case NegativeLookahead(n) =>
      ItemDepth(n);
      DepthAround(Punct("!"), ItemTokens(n), Punct("!"));
    case Cut => DepthOne(Punct("~"));
  }

  lemma {:induction false} AltsDepth(alts: seq<Alt>)
    requires forall a :: a in alts ==> CanonicalAlt(a)
    ensures Depth(AltsTokens(alts)) == 0
    decreases alts
  {
    if alts != [] {
      AltDepth(alts[0]);
      if |alts| > 1 {
        AltsDepth(alts[1..]);
        DepthAround(Punct("|"), ItemsTokens(alts[0].items), Punct("|"));
        DepthConcat(ItemsTokens(alts[0].items) + [Punct("|")], AltsTokens(alts[1..]));
      }
    }
  }

  lemma {:induction false} AltDepth(a: Alt)
    requires CanonicalAlt(a)
    ensures Depth(ItemsTokens(a.items)) == 0
    decreases a
  {
    ItemsDepth(a.items);
  }

  lemma {:induction false} ItemsDepth(items: seq<NamedItem>)
    requires forall n :: n in items ==> n == EndItem || CanonicalNamedItem(n)
    ensures Depth(ItemsTokens(items)) == 0
    decreases items
  {
    if items != [] {
      NamedItemDepth(items[0]);
      ItemsDepth(items[1..]);
      DepthConcat(NamedItemTokens(items[0]), ItemsTokens(items[1..]));
    }
  }

  lemma {:induction false} NamedItemDepth(n: NamedItem)
    requires n == EndItem || CanonicalNamedItem(n)
    ensures Depth(NamedItemTokens(n)) == 0
    decreases n
  {
    if n == EndItem {
      DepthOne(Dollar);
    } else {
      ItemDepth(n.item);
    }
  }

  /** Simple lexemes are emitted as they are; the line ends a statement if its brackets are closed. */
  lemma {:induction false} LexemesEmit(st: State, ts: seq<Token>)
    requires st.level + Depth(ts) == 0
    ensures Lexemes(st, Plains(ts) + [Break("\n")]) == Go(st.(level := 0, out := st.out + ts + [LineEnd]))
    decreases |ts|
  {
    var xs := Plains(ts) + [Break("\n")];
    if ts == [] {
      assert xs[1..] == [];
      assert st.out + ts + [LineEnd] == st.out + [LineEnd];
    } else {
      var next := st.(level := st.level + LevelChange(ts[0]), out := st.out + [ts[0]]);
      assert xs[0] == Simple(ts[0]) && xs[1..] == Plains(ts[1..]) + [Break("\n")];
      LexemesEmit(next, ts[1..]);
      assert st.out + ts + [LineEnd] == st.out + [ts[0]] + ts[1..] + [LineEnd];
    }
  }

  /** A state between statements, at the margin or inside the block of a rule. */
  predicate Between(st: State) {
    && st.level == 0 && !st.continued && st.open.None?
    && (st.indents == [0] || st.indents == [0, 4])
    && !LacksNewLine(st.lastLine)
  }

  // The blocks still to be closed.
  function Pending(st: State): seq<Token> {
    if st.indents == [0, 4] then [Token(Dedent, "")] else []
  }

  predicate PrintedLine(line: Line, margin: string, ts: seq<Token>) {
    && line.margin == margin && line.lexemes == Plains(ts) + [Break("\n")]
    && line.text != "" && line.text[|line.text| - 1] == '\n'
  }

  /** A line at the margin closes the block before it. */
  lemma {:induction false} LineAtMargin(st: State, line: Line, ts: seq<Token>)
    requires Between(st) && PrintedLine(line, "", ts) && Depth(ts) == 0 && ts != [] && ts[0].kind == Name
    ensures var next := LineStep(st, line);
            next.Go? && Between(next.state) && next.state.indents == [0]
            && next.state.out == st.out + Pending(st) + ts + [LineEnd]
  {
    hide Lexemes;
    var here := st.(lastLine := line.text);
    assert line.lexemes[0] == Simple(ts[0]);
    assert Column("") == 0;
    var closed := here.(indents := [0], out := st.out + Pending(st));
    assert Indentation(here, "") == Go(closed) by {
      if st.indents == [0, 4] {
        assert st.indents[..1] == [0];
        assert Dedents([0], 0) == (Some([0]), []);
        assert Dedents([0, 4], 0) == (Some([0]), [Token(Dedent, "")] + []);
      } else {
        assert Dedents([0], 0) == (Some([0]), []);
        assert st.out + [] == st.out;
      }
    }
    LexemesEmit(closed, ts);
  }

  /** A line of four blanks opens a block or goes on with it. */
  lemma {:induction false} LineInBlock(st: State, line: Line, ts: seq<Token>)
    requires Between(st) && PrintedLine(line, "    ", ts) && Depth(ts) == 0 && ts != [] && ts[0].kind == Op
    ensures var next := LineStep(st, line);
            next.Go? && Between(next.state) && next.state.indents == [0, 4]
            && next.state.out == st.out + (if st.indents == [0] then [Token(Indent, "    ")] else []) + ts + [LineEnd]
  {
    hide Lexemes;
    var here := st.(lastLine := line.text);
    assert line.lexemes[0] == Simple(ts[0]);
    FourBlanks();
    var inner := here.(indents := [0, 4], out := st.out + if st.indents == [0] then [Token(Indent, "    ")] else []);
    assert Indentation(here, "    ") == Go(inner) by {
      if st.indents == [0] {
        assert [0] + [4] == [0, 4];
      } else {
        assert Dedents([0, 4], 4) == (Some([0, 4]), []);
        assert st.out + [] == st.out;
      }
    }
    LexemesEmit(inner, ts);
  }

  lemma {:induction false} FourBlanks()
    ensures Column("    ") == 4
  {
    assert "    "[..3] == "   " && "   "[..2] == "  " && "  "[..1] == " " && " "[..0] == "";
    assert Column(" ") == 1;
    assert Column("  ") == 2;
    assert Column("   ") == 3;
  }

  // The lines of a printed grammar

  predicate OnOneLine(s: string) {
    forall i :: 0 <= i < |s| ==> s[i] != '\n'
  }

  lemma {:induction false} ItemOnOneLine(x: Item)
    requires Canonical(x)
    ensures OnOneLine(ItemText(x))
    decreases x
  {
    match x
    case NameLeaf(v) => assert forall i :: 0 <= i < |v| ==> v[i] in v;
    case StringLeaf(v) =>
    case Group(r) => AltsOnOneLine(r.alts);
    case Opt(n) =>
      if n.RhsItem? {
        AltsOnOneLine(n.rhs.alts);
      } else {
        ItemOnOneLine(n);
      }
    case Gather(s, n) =>
      ItemOnOneLine(s);
      ItemOnOneLine(n);
    case PositiveLookahead(n) => ItemOnOneLine(n);
    case NegativeLookahead(n) => ItemOnOneLine(n);
    case Cut =>
  }

  lemma {:induction false} AltsOnOneLine(alts: seq<Alt>)
    requires forall a :: a in alts ==> CanonicalAlt(a)
    ensures OnOneLine(AltsText(alts))
    decreases alts
  {
    if alts != [] {
      AltOnOneLine(alts[0]);
      AltsOnOneLine(alts[1..]);
    }
  }

  lemma {:induction false} AltOnOneLine(a: Alt)
    requires CanonicalAlt(a)
    ensures OnOneLine(AltText(a))
    decreases a
  {
    CoreOnOneLine(a.items);
  }

  lemma {:induction false} CoreOnOneLine(items: seq<NamedItem>)
    requires forall n :: n in items ==> n == EndItem || CanonicalNamedItem(n)
    ensures OnOneLine(Core(items))
    decreases items
  {
    if items != [] {
      NamedItemOnOneLine(items[0]);
      CoreOnOneLine(items[1..]);
    }
  }

  lemma {:induction false} NamedItemOnOneLine(n: NamedItem)
    requires n == EndItem || CanonicalNamedItem(n)
    ensures OnOneLine(NamedItemText(n))
    decreases n
  {
    if n != EndItem {
      ItemOnOneLine(n.item);
    }
  }

  lemma {:induction false} LineLengthIs(line: string, rest: string)
    requires OnOneLine(line)
    ensures LineLength(line + "\n" + rest) == |line| + 1
  {
    var s := line + "\n" + rest;
    if line != "" {
      assert s[0] == line[0];
      assert s[1..] == line[1..] + "\n" + rest;
      LineLengthIs(line[1..], rest);
    }
  }

  lemma {:induction false} FirstLine(line: string, rest: string, l: Line, more: seq<Line>)
    requires OnOneLine(line) && LineOf(line + "\n") == Some(l) && LinesOf(rest) == Some(more)
    ensures LinesOf(line + "\n" + rest) == Some([l] + more)
  {
    hide LineOf;
    LineLengthIs(line, rest);
    var s := line + "\n" + rest;
    assert s[..|line| + 1] == line + "\n" && s[|line| + 1..] == rest;
  }

  lemma {:induction false} ScanLineEnd()
    ensures Scan("\n") == Some([Break("\n")])
  {
    assert "\n"[1..] == "";
    var none: seq<Lexeme> := [];
    assert Scan("") == Some(none) && [Break("\n")] + none == [Break("\n")];
  }

  /** The head of a rule, alone on its line or before its alternatives. */
  lemma {:induction false} HeadLine(name: string, rest: string, ts: seq<Token>)
    requires Identifier(name) && OnOneLine(rest)
    requires rest != "" ==> rest[0] == ' '
    requires Scan(rest + "\n") == Join(ts, Scan("\n"))
    ensures var l := LineOf(name + ":" + rest + "\n");
            l.Some? && PrintedLine(l.value, "", [Token(Name, name), Punct(":")] + ts)
    ensures OnOneLine(name + ":" + rest)
  {
    hide Scan;
    var tail := rest + "\n";
    var text := name + ":" + rest + "\n";
    assert text == name + (":" + tail);
    assert name[0] in name && text[0] == name[0];
    assert forall i :: 0 <= i < |name| ==> name[i] in name;
    assert text[0..] == text;
    ScanWord(name, ":" + tail);
    ScanPunct(':', tail);
    ScanLineEnd();
    JoinJoin([Punct(":")], ts, Scan("\n"));
    JoinJoin([Token(Name, name)], [Punct(":")] + ts, Scan("\n"));
    assert [Token(Name, name)] + ([Punct(":")] + ts) == [Token(Name, name), Punct(":")] + ts;
  }

  lemma {:induction false} LineRuleLine(r: Rule)
    requires CanonicalRule(r)
    ensures var text := r.name + ": " + AltsText(r.rhs.alts);
            && OnOneLine(text) && LineOf(text + "\n").Some?
            && PrintedLine(LineOf(text + "\n").value, "", [Token(Name, r.name), Punct(":")] + AltsTokens(r.rhs.alts))
  {
    hide Scan, AltsText, AltsTokens, LineOf, PrintedLine, CanonicalAlt;
    CanonicalRhsParts(r.rhs);
    var alts := AltsText(r.rhs.alts);
    AltsOnOneLine(r.rhs.alts);
    ScanAlts(r.rhs.alts, "\n");
    ScanBlank(alts + "\n");
    assert " " + alts + "\n" == " " + (alts + "\n");
    HeadLine(r.name, " " + alts, AltsTokens(r.rhs.alts));
    assert r.name + ": " + alts == r.name + ":" + (" " + alts);
  }

  lemma {:induction false} HeadAloneLine(r: Rule)
    requires CanonicalRule(r)
    ensures var text := r.name + ":";
            && OnOneLine(text) && LineOf(text + "\n").Some?
            && PrintedLine(LineOf(text + "\n").value, "", [Token(Name, r.name), Punct(":")])
  {
    hide Scan, LineOf, PrintedLine;
    JoinNone(Scan("\n"));
    assert "" + "\n" == "\n";
    HeadLine(r.name, "", []);
    assert r.name + ":" + "" == r.name + ":";
    assert [Token(Name, r.name), Punct(":")] + [] == [Token(Name, r.name), Punct(":")];
  }

  lemma {:induction false} AltLine(a: Alt)
    requires CanonicalAlt(a)
    ensures var text := "    | " + AltText(a);
            && OnOneLine(text) && LineOf(text + "\n").Some?
            && PrintedLine(LineOf(text + "\n").value, "    ", [Punct("|")] + ItemsTokens(a.items))
  {
    hide Scan, AltText, ItemsTokens, Canonical;
    AltOnOneLine(a);
    var rest := AltText(a) + "\n";
    var text := "    | " + AltText(a) + "\n";
    assert text[4..] == "|" + (" " + rest) && text[..4] == "    ";
    MarginOfFour(text);
    ScanPunct('|', " " + rest);
    ScanBlank(rest);
    ScanAlt(a, "\n");
    ScanLineEnd();
    JoinJoin([Punct("|")], ItemsTokens(a.items), Scan("\n"));
  }

  lemma {:induction false} MarginOfFour(text: string)
    requires |text| > 4 && text[..4] == "    " && text[4] == '|'
    ensures MarginLength(text) == 4
  {
    assert text[0] == text[..4][0] && text[1] == text[..4][1] && text[2] == text[..4][2] && text[3] == text[..4][3];
    var t1 := text[1..];
    var t2 := t1[1..];
    var t3 := t2[1..];
    assert t3[1..][0] == '|';
    assert MarginLength(t3[1..]) == 0;
    assert MarginLength(t3) == 1;
    assert MarginLength(t2) == 2;
    assert MarginLength(t1) == 3;
  }

  lemma {:induction false} BeforeColonIs(name: string, rest: string)
    requires ':' !in name
    ensures BeforeColon(name + ":" + rest) == name
  {
    var s := name + ":" + rest;
    if name != "" {
      assert s[0] == name[0] && name[0] in name;
      assert s[1..] == name[1..] + ":" + rest;
      BeforeColonIs(name[1..], rest);
    }
  }

  /** The lines as one text, each with its line feed. */
  function Unlines(lines: seq<string>): string {
    if lines == [] then "" else lines[0] + "\n" + Unlines(lines[1..])
  }

  lemma {:induction false} UnlinesIs(lines: seq<string>)
    requires lines != []
    ensures Implode(lines) + "\n" == Unlines(lines)
  {
    if |lines| > 1 {
      UnlinesIs(lines[1..]);
      assert Implode(lines) + "\n" == lines[0] + "\n" + (Implode(lines[1..]) + "\n");
    } else {
      assert lines[1..] == [];
      assert Unlines(lines) == lines[0] + "\n" + "";
    }
  }

  /** The state after the lines of a text, if the tokenizer gets through all of them. */
  function Steps(st: State, lines: seq<string>): Option<State>
    decreases |lines|
  {
    if lines == [] then Some(st)
    else
      match LineOf(lines[0] + "\n")
      case None => None
      case Some(l) =>
        match LineStep(st, l)
        case Stop(_, _) => None
        case Go(next) => Steps(next, lines[1..])
  }

  lemma {:induction false} StepsConcat(st: State, a: seq<string>, b: seq<string>)
    ensures Steps(st, a + b) == if Steps(st, a).Some? then Steps(Steps(st, a).value, b) else None
    decreases |a|
  {
    hide LineOf, LineStep;
    if a == [] {
      assert a + b == b;
    } else {
      assert (a + b)[0] == a[0] && (a + b)[1..] == a[1..] + b;
      var l := LineOf(a[0] + "\n");
      if l.Some? && LineStep(st, l.value).Go? {
        StepsConcat(LineStep(st, l.value).state, a[1..], b);
      }
    }
  }

  lemma {:induction false} RunOfSteps(st: State, lines: seq<string>)
    requires Steps(st, lines).Some? && forall i :: 0 <= i < |lines| ==> OnOneLine(lines[i])
    ensures LinesOf(Unlines(lines)).Some?
    ensures Run(st, LinesOf(Unlines(lines)).value) == AtEnd(Steps(st, lines).value)
    decreases |lines|
  {
    hide LineOf, LineStep, AtEnd;
    if lines != [] {
      var l := LineOf(lines[0] + "\n").value;
      RunOfSteps(LineStep(st, l).state, lines[1..]);
      var more := LinesOf(Unlines(lines[1..])).value;
      FirstLine(lines[0], Unlines(lines[1..]), l, more);
      assert ([l] + more)[0] == l && ([l] + more)[1..] == more;
    }
  }

  lemma {:induction false} FirstStep(st: State, line: string, rest: seq<string>)
    requires LineOf(line + "\n").Some? && LineStep(st, LineOf(line + "\n").value).Go?
    ensures Steps(st, [line] + rest) == Steps(LineStep(st, LineOf(line + "\n").value).state, rest)
  {
    hide LineOf, LineStep;
    assert ([line] + rest)[1..] == rest;
  }

  lemma {:induction false} BlockSteps(st: State, alts: seq<Alt>)
    requires Between(st) && forall a :: a in alts ==> CanonicalAlt(a)
    requires alts == [] ==> st.indents == [0, 4]
    ensures var end := Steps(st, AltLines(alts));
            end.Some? && Between(end.value) && end.value.indents == [0, 4]
            && end.value.out == st.out + (if st.indents == [0] then [Token(Indent, "    ")] else []) + BlockTokens(alts)
    ensures forall i :: 0 <= i < |AltLines(alts)| ==> OnOneLine(AltLines(alts)[i])
    decreases |alts|
  {
    hide LineOf, LineStep, PrintedLine, AltText, ItemsTokens, CanonicalAlt, Between, Depth, OnOneLine, Steps;
    var before := if st.indents == [0] then [Token(Indent, "    ")] else [];
    if alts == [] {
      assert st.out + before + [] == st.out;
      NoSteps(st);
    } else {
      AltLine(alts[0]);
      var l := LineOf("    | " + AltText(alts[0]) + "\n").value;
      var ts := [Punct("|")] + ItemsTokens(alts[0].items);
      AltDepth(alts[0]);
      DepthAround(Punct("|"), ItemsTokens(alts[0].items), Punct("|"));
      LineInBlock(st, l, ts);
      var next := LineStep(st, l).state;
      BlockSteps(next, alts[1..]);
      FirstStep(st, "    | " + AltText(alts[0]), AltLines(alts[1..]));
      var rest := BlockTokens(alts[1..]);
      assert st.out + before + ts + [LineEnd] + [] + rest == st.out + before + (ts + [LineEnd] + rest);
    }
  }

  lemma {:induction false} OneStep(st: State, line: string)
    requires LineOf(line + "\n").Some? && LineStep(st, LineOf(line + "\n").value).Go?
    ensures Steps(st, [line]) == Some(LineStep(st, LineOf(line + "\n").value).state)
  {
    hide LineOf, LineStep;
    FirstStep(st, line, []);
    assert [line] + [] == [line];
  }

  lemma {:induction false} RuleSteps(st: State, r: Rule)
    requires Between(st) && CanonicalRule(r)
    ensures var end := Steps(st, RuleLines(r));
            end.Some? && Between(end.value)
            && end.value.out + Pending(end.value) == st.out + Pending(st) + RuleTokens(r)
    ensures RuleLines(r) != [] && forall i :: 0 <= i < |RuleLines(r)| ==> OnOneLine(RuleLines(r)[i])
  {
    hide LineOf, LineStep, PrintedLine, AltsText, AltsTokens, BlockTokens, OneLine, CanonicalAlt, Steps, AltLines;
    var before := st.out + Pending(st);
    var head := [Token(Name, r.name), Punct(":")];
    DepthAround(head[0], [], head[1]);
    assert [head[0]] + [] + [head[1]] == head;
    CanonicalRhsParts(r.rhs);
    if OneLine(r) {
      LineRuleLine(r);
      var text := r.name + ": " + AltsText(r.rhs.alts);
      var ts := AltsTokens(r.rhs.alts);
      AltsDepth(r.rhs.alts);
      DepthConcat(head, ts);
      LineAtMargin(st, LineOf(text + "\n").value, head + ts);
      OneStep(st, text);
      LineRuleTokens(r);
      assert before + (head + ts) + [LineEnd] + [] == before + (head + ts + [LineEnd]);
    } else {
      BlockRuleSteps(st, r);
    }
  }

  lemma {:induction false} BlockRuleSteps(st: State, r: Rule)
    requires Between(st) && CanonicalRule(r) && !OneLine(r)
    ensures var end := Steps(st, RuleLines(r));
            end.Some? && Between(end.value)
            && end.value.out + Pending(end.value) == st.out + Pending(st) + RuleTokens(r)
    ensures RuleLines(r) != [] && forall i :: 0 <= i < |RuleLines(r)| ==> OnOneLine(RuleLines(r)[i])
  {
    hide LineOf, LineStep, PrintedLine, AltsText, AltsTokens, BlockTokens, OneLine, CanonicalAlt, Steps, AltLines;
    var before := st.out + Pending(st);
    var head := [Token(Name, r.name), Punct(":")];
    DepthAround(head[0], [], head[1]);
    assert [head[0]] + [] + [head[1]] == head;
    CanonicalRhsParts(r.rhs);
    var text := r.name + ":";
    HeadAloneLine(r);
    LineAtMargin(st, LineOf(text + "\n").value, head);
    OneStep(st, text);
    var next := Steps(st, [text]).value;
    BlockSteps(next, r.rhs.alts);
    StepsConcat(st, [text], AltLines(r.rhs.alts));
    NameBeforeColon(r);
    assert RuleLines(r) == [text] + AltLines(r.rhs.alts);
    BlockRuleTokens(r);
    var block := BlockTokens(r.rhs.alts);
    assert before + head + [LineEnd] + [Token(Indent, "    ")] + block + [Token(Dedent, "")]
        == before + (head + [LineEnd, Token(Indent, "    ")] + block + [Token(Dedent, "")]);
  }

  lemma {:induction false} NameBeforeColon(r: Rule)
    requires Identifier(r.name)
    ensures BeforeColon(r.name + ": " + AltsText(r.rhs.alts)) == r.name
  {
    hide AltsText;
    var alts := AltsText(r.rhs.alts);
    BeforeColonIs(r.name, " " + alts);
    assert r.name + ": " + alts == r.name + ":" + (" " + alts);
  }

  function AllLines(rules: seq<Rule>): seq<string> {
    if rules == [] then [] else RuleLines(rules[0]) + AllLines(rules[1..])
  }

  lemma {:induction false} UnlinesConcat(a: seq<string>, b: seq<string>)
    ensures Unlines(a + b) == Unlines(a) + Unlines(b)
  {
    if a == [] {
      assert a + b == b;
    } else {
      UnlinesConcat(a[1..], b);
      assert (a + b)[0] == a[0] && (a + b)[1..] == a[1..] + b;
      assert a[0] + "\n" + (Unlines(a[1..]) + Unlines(b)) == a[0] + "\n" + Unlines(a[1..]) + Unlines(b);
    }
  }

  lemma {:induction false} RulesSteps(st: State, rules: seq<Rule>)
    requires Between(st) && forall r :: r in rules ==> CanonicalRule(r)
    ensures var end := Steps(st, AllLines(rules));
            end.Some? && Between(end.value)
            && end.value.out + Pending(end.value) == st.out + Pending(st) + RulesTokens(rules)
    decreases |rules|
  {
    hide CanonicalRule, RuleLines, RuleTokens, Pending, Between, OnOneLine, Steps;
    if rules == [] {
      assert Steps(st, []) == Some(st) by {
        NoSteps(st);
      }
      assert st.out + Pending(st) + [] == st.out + Pending(st);
    } else {
      var first, rest := RuleLines(rules[0]), AllLines(rules[1..]);
      RuleSteps(st, rules[0]);
      var next := Steps(st, first).value;
      RulesSteps(next, rules[1..]);
      StepsConcat(st, first, rest);
      assert st.out + Pending(st) + RuleTokens(rules[0]) + RulesTokens(rules[1..])
          == st.out + Pending(st) + (RuleTokens(rules[0]) + RulesTokens(rules[1..]));
    }
  }

  lemma {:induction false} NoSteps(st: State)
    ensures Steps(st, []) == Some(st)
  {
  }

  lemma {:induction false} TextOfLines(rules: seq<Rule>)
    requires forall r :: r in rules ==> CanonicalRule(r)
    ensures RulesText(rules) == Unlines(AllLines(rules))
    ensures forall i :: 0 <= i < |AllLines(rules)| ==> OnOneLine(AllLines(rules)[i])
    decreases |rules|
  {
    hide CanonicalRule, RuleLines, OnOneLine, Steps, Between, Pending;
    if rules != [] {
      var first, rest := RuleLines(rules[0]), AllLines(rules[1..]);
      InitialBetween();
      RuleSteps(Initial, rules[0]);
      TextOfLines(rules[1..]);
      UnlinesConcat(first, rest);
      UnlinesIs(first);
    }
  }

  lemma {:induction false} InitialBetween()
    ensures Between(Initial)
  {
  }

  // What Tokenizer lets through

  predicate Passes(t: Token) {
    t.kind != Comment && t.kind != ContinuedNewLine && !(t.kind == ErrorMarker && IsSpaceText(t.value))
  }

  // ctype_space
  predicate IsSpaceText(s: string) {
    s != "" && forall i :: 0 <= i < |s| ==> s[i] in {' ', '\t', '\n', '\r', 11 as char, 12 as char}
  }

  /** The tokens that `peekToken` puts into its buffer. */
  function Visible(ts: seq<Token>): seq<Token> {
    if ts == [] then [] else (if Passes(ts[0]) then [ts[0]] else []) + Visible(ts[1..])
  }

  lemma {:induction false} PlainIsVisible(ts: seq<Token>)
    requires Plain(ts)
    ensures Visible(ts) == ts
  {
    if ts != [] {
      assert PlainToken(ts[0]);
      assert Dollar.value[0] == '$';
      assert Passes(ts[0]);
      PlainIsVisible(ts[1..]);
    }
  }

  lemma {:induction false} TokensOfText(g: Grammar)
    requires CanonicalGrammar(g)
    ensures LinesOf(TextOfGrammar(g)).Some?
    ensures Run(Initial, LinesOf(TextOfGrammar(g)).value) == Stop(GrammarTokens(g), Finished)
    ensures Visible(GrammarTokens(g)) == GrammarTokens(g)
  {
    hide CanonicalRule, RulesTokens, RulesText, AllLines, Steps, LinesOf, Run, Plain;
    var rules := Values(g.rules);
    RulesOfCanonical(g);
    InitialBetween();
    RulesSteps(Initial, rules);
    TextOfLines(rules);
    RunOfSteps(Initial, AllLines(rules));
    var end := Steps(Initial, AllLines(rules)).value;
    ClosesPending(end);
    assert Initial.out + Pending(Initial) + RulesTokens(rules) == RulesTokens(rules);
    RulesPlain(rules);
    MarkerPlain();
    ConcatPlain(RulesTokens(rules), [Token(EndMarker, "")]);
    PlainIsVisible(GrammarTokens(g));
  }

  lemma {:induction false} ClosesPending(st: State)
    requires Between(st)
    ensures AtEnd(st) == Stop(st.out + Pending(st) + [Token(EndMarker, "")], Finished)
  {
    var t := Token(Dedent, "");
    assert Repeat(t, 0) == [];
    assert Repeat(t, 1) == [t] + Repeat(t, 0);
    assert st.out + [] == st.out;
  }

  // How wide a rule is

  function Widths(alts: seq<Alt>): nat {
    if alts == [] then 0 else |AltText(alts[0])| + Widths(alts[1..])
  }

  lemma {:induction false} WidthOfAlts(alts: seq<Alt>)
    requires alts != []
    ensures |AltsText(alts)| == Widths(alts) + 3 * (|alts| - 1)
  {
    hide AltText;
    if |alts| > 1 {
      WidthOfAlts(alts[1..]);
    } else {
      assert alts[1..] == [];
    }
  }

  lemma {:induction false} LineOfAlt(alts: seq<Alt>, i: nat)
    requires i < |alts|
    ensures |AltLines(alts)| == |alts| && AltLines(alts)[i] == "    | " + AltText(alts[i])
  {
    hide AltText;
    if |alts| == 1 {
      assert AltLines(alts[1..]) == [];
    } else if i == 0 {
      LineOfAlt(alts[1..], 0);
    } else {
      LineOfAlt(alts[1..], i - 1);
    }
  }

  /**
   A rule is on one line exactly where its name, its alternatives and what joins them are less than 88
   characters; otherwise each alternative has a line of its own below the name.
   */
  lemma {:induction false} LinesOfARule(r: Rule)
    requires r.rhs.alts != [] && ':' !in r.name
    ensures var lines, alts := RuleLines(r), r.rhs.alts;
            var width := |r.name| + 2 + Widths(alts) + 3 * (|alts| - 1);
            if width < 88 then |lines| == 1 && |lines[0]| == width
            else |lines| == 1 + |alts| && lines[0] == r.name + ":"
                 && forall i :: 0 <= i < |alts| ==> lines[1 + i] == "    | " + AltText(alts[i])
  {
    hide AltText, AltsText, AltLines;
    var alts := r.rhs.alts;
    WidthOfAlts(alts);
    BeforeColonIs(r.name, " " + AltsText(alts));
    assert r.name + ": " + AltsText(alts) == r.name + ":" + (" " + AltsText(alts));
    forall i | 0 <= i < |alts|
      ensures |AltLines(alts)| == |alts| && AltLines(alts)[i] == "    | " + AltText(alts[i])
    {
      LineOfAlt(alts, i);
    }
    LineOfAlt(alts, 0);
  }
}
