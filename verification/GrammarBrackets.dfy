/**
 Square brackets in token lists: whatever is written in the language of grammars
 has them in pairs, and so has whatever the parser reads as types and actions.
 That is why brackets after an item are not taken for the type of its name.
 */
module GrammarBrackets {
  import opened Wrappers
  import opened GrammarTree
  import opened GrammarDescent
  import opened GrammarPrinter
  import opened GrammarWriting

  // Parts of the token list

  predicate At(ts: Tokens, i: nat, part: seq<Token>) {
    i + |part| <= |ts| && ts[i..i + |part|] == part
  }

  lemma {:induction false} AtSplit(ts: Tokens, i: nat, a: seq<Token>, b: seq<Token>)
    requires At(ts, i, a + b)
    ensures At(ts, i, a) && At(ts, i + |a|, b)
  {
    assert (a + b)[..|a|] == a && (a + b)[|a|..] == b;
    assert ts[i..i + |a|] == ts[i..i + |a + b|][..|a|];
    assert ts[i + |a|..i + |a| + |b|] == ts[i..i + |a + b|][|a|..];
  }

  lemma {:induction false} AtHead(ts: Tokens, i: nat, t: Token, rest: seq<Token>)
    requires At(ts, i, [t] + rest)
    ensures i < |ts| && ts[i] == t && At(ts, i + 1, rest)
  {
    AtSplit(ts, i, [t], rest);
    assert ts[i..i + 1][0] == ts[i];
  }

  lemma {:induction false} AtFirst(ts: Tokens, i: nat, part: seq<Token>)
    requires At(ts, i, part) && part != []
    ensures i < |ts| && ts[i] == part[0]
  {
    assert ts[i..i + |part|][0] == ts[i];
  }

  lemma {:induction false} AtIndex(ts: Tokens, i: nat, part: seq<Token>, k: nat)
    requires At(ts, i, part) && k < |part|
    ensures i + k < |ts| && ts[i + k] == part[k]
  {
    assert ts[i..i + |part|][k] == ts[i + k];
  }

  /** A part between two tokens. */
  lemma {:induction false} AtInside(ts: Tokens, i: nat, t: Token, a: seq<Token>, u: Token)
    requires At(ts, i, [t] + (a + [u]))
    ensures i + 1 + |a| < |ts| && ts[i] == t && ts[i + 1 + |a|] == u && At(ts, i + 1, a)
  {
    hide At;
    AtHead(ts, i, t, a + [u]);
    AtSplit(ts, i + 1, a, [u]);
    AtHead(ts, i + 1 + |a|, u, []);
  }

  // Square brackets

  /** Tokens with the text `]` are brackets, unless they are code. */
  predicate SaneToken(t: Token) {
    t.value == "]" ==> t.kind == Op || t.kind == GrammarAction
  }

  predicate Sane(ts: seq<Token>) {
    forall i :: 0 <= i < |ts| ==> SaneToken(ts[i])
  }

  function Net(t: Token): int {
    if t.kind == GrammarAction then 0 else if t.value == "[" then 1 else if t.value == "]" then -1 else 0
  }

  function Depth(ts: seq<Token>): int {
    if ts == [] then 0 else Net(ts[0]) + Depth(ts[1..])
  }

  /** Square brackets come in pairs. */
  predicate Even(ts: seq<Token>) {
    Depth(ts) == 0 && forall k :: 0 <= k <= |ts| ==> Depth(ts[..k]) >= 0
  }

  predicate Square(ts: seq<Token>) {
    Sane(ts) && Even(ts)
  }

  lemma {:induction false} DepthConcat(a: seq<Token>, b: seq<Token>)
    ensures Depth(a + b) == Depth(a) + Depth(b)
  {
    if a == [] {
      assert a + b == b;
    } else {
      DepthConcat(a[1..], b);
      assert (a + b)[1..] == a[1..] + b;
    }
  }

  lemma {:induction false} EvenConcat(a: seq<Token>, b: seq<Token>)
    requires Even(a) && Even(b)
    ensures Even(a + b)
  {
    DepthConcat(a, b);
    forall k | 0 <= k <= |a + b| ensures Depth((a + b)[..k]) >= 0 {
      if k <= |a| {
        assert (a + b)[..k] == a[..k];
      } else {
        assert (a + b)[..k] == a + b[..k - |a|];
        DepthConcat(a, b[..k - |a|]);
      }
    }
  }

  lemma {:induction false} EvenToken(t: Token)
    requires Net(t) == 0
    ensures Even([t])
  {
    assert [t][..0] == [] && [t][..1] == [t] && [t][1..] == [];
  }

  /** In `[a]` the depth is positive everywhere inside. */
  lemma {:induction false} InsideBrackets(t: Token, a: seq<Token>, u: Token, k: nat)
    requires Net(t) == 1 && Even(a) && Net(u) == -1 && 0 < k < |a| + 2
    ensures Depth(([t] + (a + [u]))[..k]) >= 1
  {
    assert ([t] + (a + [u]))[..k] == [t] + a[..k - 1];
    DepthConcat([t], a[..k - 1]);
    assert [t][1..] == [];
  }

  lemma {:induction false} EvenBrackets(t: Token, a: seq<Token>, u: Token)
    requires Net(t) == 1 && Even(a) && Net(u) == -1
    ensures Even([t] + (a + [u]))
  {
    var all := [t] + (a + [u]);
    DepthConcat(a, [u]);
    assert [u][1..] == [] && all[1..] == a + [u];
    assert Depth(all) == 0;
    forall k | 0 <= k <= |all| ensures Depth(all[..k]) >= 0 {
      if k == |all| {
        assert all[..k] == all;
      } else if k > 0 {
        InsideBrackets(t, a, u, k);
      }
    }
  }

  lemma {:induction false} AtBoth(ts: Tokens, i: nat, p: seq<Token>, q: seq<Token>)
    requires At(ts, i, p) && At(ts, i, q) && |p| <= |q|
    ensures q[..|p|] == p
  {
    assert q[..|p|] == ts[i..i + |q|][..|p|] == ts[i..i + |p|];
  }

  lemma {:induction false} NotBefore(ts: Tokens, i: nat, a: seq<Token>, b: seq<Token>, t: Token, u: Token, v: Token)
    requires At(ts, i, [t] + (a + [u])) && At(ts, i, [t] + (b + [v])) && Even(a) && Even(b)
    requires Net(t) == 1 && Net(u) == -1 && Net(v) == -1
    ensures |a| >= |b|
  {
    EvenBrackets(t, a, u);
    if |a| < |b| {
      AtBoth(ts, i, [t] + (a + [u]), [t] + (b + [v]));
      InsideBrackets(t, b, v, |a| + 2);
    }
  }

  /** Where a pair of brackets closes is settled where it opens. */
  lemma {:induction false} PairsAgree(ts: Tokens, i: nat, a: seq<Token>, b: seq<Token>, t: Token, u: Token, v: Token)
    requires At(ts, i, [t] + (a + [u])) && At(ts, i, [t] + (b + [v])) && Even(a) && Even(b)
    requires Net(t) == 1 && Net(u) == -1 && Net(v) == -1
    ensures |a| == |b|
  {
    NotBefore(ts, i, a, b, t, u, v);
    NotBefore(ts, i, b, a, t, v, u);
  }

  lemma {:induction false} SquareConcat(a: seq<Token>, b: seq<Token>)
    requires Square(a) && Square(b)
    ensures Square(a + b)
  {
    EvenConcat(a, b);
  }

  lemma {:induction false} SquareToken(t: Token)
    requires SaneToken(t) && Net(t) == 0
    ensures Square([t])
  {
    EvenToken(t);
  }

  lemma {:induction false} SquareNothing()
    ensures Square([])
  {
  }

  lemma {:induction false} SquareBrackets(a: seq<Token>)
    requires Square(a)
    ensures Square([Punct("[")] + (a + [Punct("]")]))
  {
    EvenBrackets(Punct("["), a, Punct("]"));
  }

  lemma {:induction false} SquareBetween(t: Token, a: seq<Token>, u: Token)
    requires SaneToken(t) && Net(t) == 0 && Square(a) && SaneToken(u) && Net(u) == 0
    ensures Square([t] + (a + [u])) && Square([t] + a) && Square(a + [u])
  {
    hide Square, Net, SaneToken;
    SquareToken(t);
    SquareToken(u);
    SquareConcat(a, [u]);
    SquareConcat([t], a);
    SquareConcat([t], a + [u]);
  }

  lemma {:induction false} IdentifierIsNoBracket(v: string)
    requires Identifier(v)
    ensures SaneToken(Token(Name, v)) && Net(Token(Name, v)) == 0
  {
    assert v[0] in v;
  }

  // Whatever is written is square.

  lemma {:induction false} AtomSquare(a: Atom)
    requires GoodAtom(a)
    ensures Square(AtomTokens(a))
    decreases a
  {
    hide Square;
    match a
    case Code(v) => SquareToken(Token(GrammarAction, v));
    case Word(v) =>
      IdentifierIsNoBracket(v);
      SquareToken(Token(Name, v));
    case StarWord(v) =>
      IdentifierIsNoBracket(v);
      SquareToken(Token(Name, v));
      SquareToken(Punct("*"));
      SquareConcat([Token(Name, v)], [Punct("*")]);
    case Num(v) => SquareToken(Token(Number, v));
    case Str(v) => SquareToken(Token(String, v));
    case Sign(v) => SquareToken(Punct(v));
    case Nested(atoms) =>
      AtomsSquare(atoms);
      SquareBrackets(AtomsTokens(atoms));
  }

  lemma {:induction false} AtomsSquare(atoms: seq<Atom>)
    requires GoodAtoms(atoms)
    ensures Square(AtomsTokens(atoms))
    decreases atoms
  {
    hide Square;
    if atoms == [] {
      SquareNothing();
    } else {
      AtomSquare(atoms[0]);
      AtomsSquare(atoms[1..]);
      SquareConcat(AtomTokens(atoms[0]), AtomsTokens(atoms[1..]));
    }
  }

  lemma {:induction false} SpellingSquare(s: Style, text: string)
    requires Spelled(s, text)
    ensures Square(Spelling(s, text)) && Square(InBrackets(s, text))
  {
    hide Square;
    AtomsSquare(s.spelling[text]);
    SquareBrackets(Spelling(s, text));
  }

  lemma {:induction false} ItemSquare(s: Style, x: Item)
    requires Writable(s, x)
    ensures Square(WriteItem(s, x))
    decreases x, 0
  {
    hide Square;
    match x
    case NameLeaf(v) =>
      IdentifierIsNoBracket(v);
      SquareToken(Token(Name, v));
    case StringLeaf(v) => SquareToken(Token(String, v));
    case Group(r) =>
      AltsSquare(s, r.alts);
      SquareBetween(Punct("("), WriteAlts(s, r.alts), Punct(")"));
    case Opt(n) =>
      if n.RhsItem? {
        AltsSquare(s, n.rhs.alts);
        SquareBrackets(WriteAlts(s, n.rhs.alts));
      } else {
        ItemSquare(s, n);
        SquareBetween(Punct("?"), WriteItem(s, n), Punct("?"));
      }
    case Repeat0(n) =>
      ItemSquare(s, n);
      SquareBetween(Punct("*"), WriteItem(s, n), Punct("*"));
    case Repeat1(n) =>
      ItemSquare(s, n);
      SquareBetween(Punct("+"), WriteItem(s, n), Punct("+"));
    case Gather(separator, n) =>
      ItemSquare(s, separator);
      ItemSquare(s, n);
      SquareBetween(Punct("."), WriteItem(s, n), Punct("+"));
      SquareConcat(WriteItem(s, separator), [Punct(".")] + (WriteItem(s, n) + [Punct("+")]));
    case Forced(n) =>
      ItemSquare(s, n);
      SquareBetween(Punct("&"), WriteItem(s, n), Punct("&"));
      SquareBetween(Punct("&"), [Punct("&")] + WriteItem(s, n), Punct("&"));
    case PositiveLookahead(n) =>
      ItemSquare(s, n);
      SquareBetween(Punct("&"), WriteItem(s, n), Punct("&"));
    case NegativeLookahead(n) =>
      ItemSquare(s, n);
      SquareBetween(Punct("!"), WriteItem(s, n), Punct("!"));
    case Cut => SquareToken(Punct("~"));
  }

  lemma {:induction false} NameSquare(s: Style, n: NamedItem)
    requires WritableNamedItem(s, n)
    ensures Square(WriteName(s, n))
  {
    hide Square;
    if n.name.None? {
      SquareNothing();
    } else {
      IdentifierIsNoBracket(n.name.value);
      var name := Token(Name, n.name.value);
      if n.annotation.None? {
        SquareToken(name);
        SquareToken(Punct("="));
        SquareConcat([name], [Punct("=")]);
      } else {
        SpellingSquare(s, n.annotation.value);
        SquareBetween(name, InBrackets(s, n.annotation.value), Punct("="));
      }
    }
  }

  lemma {:induction false} NamedItemSquare(s: Style, n: NamedItem)
    requires WritableNamedItem(s, n)
    ensures Square(WriteNamedItem(s, n))
    decreases n, 0
  {
    hide Square, WriteName;
    NameSquare(s, n);
    ItemSquare(s, n.item);
    SquareConcat(WriteName(s, n), WriteItem(s, n.item));
  }

  lemma {:induction false} ItemsSquare(s: Style, items: seq<NamedItem>)
    requires forall n :: n in items ==> WritableNamedItem(s, n)
    ensures Square(WriteItems(s, items))
    decreases items, 0
  {
    hide Square, WriteNamedItem;
    if items == [] {
      SquareNothing();
    } else {
      NamedItemSquare(s, items[0]);
      ItemsSquare(s, items[1..]);
      SquareConcat(WriteNamedItem(s, items[0]), WriteItems(s, items[1..]));
    }
  }

  lemma {:induction false} TailSquare(s: Style, a: Alt)
    requires a.action.Some? ==> Spelled(s, a.action.value)
    ensures Square(WriteTail(s, a))
  {
    hide Square;
    SquareNothing();
    SquareToken(Dollar);
    var dollar := if EndsInDollar(a) then [Dollar] else [];
    if a.action.Some? {
      SpellingSquare(s, a.action.value);
      SquareBetween(Punct("{"), Spelling(s, a.action.value), Punct("}"));
      SquareConcat(dollar, [Punct("{")] + (Spelling(s, a.action.value) + [Punct("}")]));
    } else {
      SquareConcat(dollar, []);
    }
  }

  lemma {:induction false} AltSquare(s: Style, a: Alt)
    requires WritableAlt(s, a)
    ensures Square(WriteAlt(s, a))
    decreases a, 0
  {
    hide Square, WriteTail, WriteItems;
    ItemsSquare(s, Body(a));
    TailSquare(s, a);
    SquareConcat(WriteItems(s, Body(a)), WriteTail(s, a));
  }

  lemma {:induction false} AltsSquare(s: Style, alts: seq<Alt>)
    requires forall a :: a in alts ==> WritableAlt(s, a)
    ensures Square(WriteAlts(s, alts))
    decreases alts, 0
  {
    hide Square, WriteAlt, WritableAlt;
    if alts == [] {
      SquareNothing();
    } else {
      AltSquare(s, alts[0]);
      if |alts| > 1 {
        AltsSquare(s, alts[1..]);
        SquareBetween(Punct("|"), WriteAlts(s, alts[1..]), Punct("|"));
        SquareConcat(WriteAlt(s, alts[0]), [Punct("|")] + WriteAlts(s, alts[1..]));
      }
    }
  }

  lemma {:induction false} RulePartsWritten(s: Style, r: Rule)
    requires WritableRule(s, r)
    ensures var l, alts := LayoutOf(s, r), r.rhs.alts;
            && l.head <= |alts| && alts != [] && (forall a :: a in alts ==> WritableAlt(s, a))
            && (r.annotation.Some? ==> Spelled(s, r.annotation.value)) && Fits(l.lines, |alts| - l.head)
            && (l.lines == [] ==> l.head == |alts|)
            && WriteRule(s, r) == WriteHead(s, r) + (WriteAlts(s, alts[..l.head]) + ([LineEnd]
                 + if l.lines == [] then [] else WriteBlock(s, alts[l.head..], l.lines)))
  {
    hide WritableAlt, WriteHead, WriteAlts, WriteBlock, Spelled;
  }

  lemma {:induction false} HeadSquare(s: Style, r: Rule)
    requires Identifier(r.name) && (r.annotation.Some? ==> Spelled(s, r.annotation.value))
    ensures Square(WriteHead(s, r))
  {
    hide Square, Spelled, InBrackets, Identifier;
    IdentifierIsNoBracket(r.name);
    var brackets := if r.annotation.Some? then InBrackets(s, r.annotation.value) else [];
    var memo := if r in s.memo then [Punct("("), Token(Name, "memo"), Punct(")")] else [];
    MemoSquare();
    SquareNothing();
    if r.annotation.Some? {
      SpellingSquare(s, r.annotation.value);
    }
    SquareConcat(brackets, memo);
    SquareBetween(Token(Name, r.name), brackets + memo, Punct(":"));
    assert [Token(Name, r.name)] + (brackets + memo + [Punct(":")]) == WriteHead(s, r);
  }

  lemma {:induction false} MemoSquare()
    ensures Square([Punct("("), Token(Name, "memo"), Punct(")")])
  {
    hide Square;
    SquareToken(Token(Name, "memo"));
    SquareBetween(Punct("("), [Token(Name, "memo")], Punct(")"));
    assert [Punct("(")] + ([Token(Name, "memo")] + [Punct(")")]) == [Punct("("), Token(Name, "memo"), Punct(")")];
  }

  lemma {:induction false} LinesSquare(s: Style, alts: seq<Alt>, lines: seq<nat>)
    requires (forall a :: a in alts ==> WritableAlt(s, a)) && Fits(lines, |alts|)
    ensures Square(WriteLines(s, alts, lines))
    decreases |lines|
  {
    hide Square, WritableAlt, WriteAlts;
    if lines == [] {
      SquareNothing();
    } else {
      var line, rest := WriteAlts(s, alts[..lines[0]]), WriteLines(s, alts[lines[0]..], lines[1..]);
      AltsSquare(s, alts[..lines[0]]);
      LinesSquare(s, alts[lines[0]..], lines[1..]);
      SquareBetween(LineEnd, rest, LineEnd);
      SquareConcat(line, [LineEnd] + rest);
      SquareBetween(Punct("|"), line + ([LineEnd] + rest), LineEnd);
    }
  }

  lemma {:induction false} RuleSquare(s: Style, r: Rule)
    requires WritableRule(s, r)
    ensures Square(WriteRule(s, r))
  {
    hide Square, WritableAlt, WriteAlts, WriteHead, WriteLines, Fits, Spelled;
    var alts, l := r.rhs.alts, LayoutOf(s, r);
    RulePartsWritten(s, r);
    HeadSquare(s, r);
    AltsSquare(s, alts[..l.head]);
    SquareNothing();
    var block := if l.lines == [] then [] else WriteBlock(s, alts[l.head..], l.lines);
    if l.lines != [] {
      LinesSquare(s, alts[l.head..], l.lines);
      SquareBetween(Token(Indent, "    "), WriteLines(s, alts[l.head..], l.lines), Token(Dedent, ""));
    }
    SquareBetween(LineEnd, block, LineEnd);
    SquareConcat(WriteAlts(s, alts[..l.head]), [LineEnd] + block);
    SquareConcat(WriteHead(s, r), WriteAlts(s, alts[..l.head]) + ([LineEnd] + block));
  }

  lemma {:induction false} RulesSquare(s: Style, rules: seq<Rule>)
    requires forall r :: r in rules ==> WritableRule(s, r)
    ensures Square(WriteRules(s, rules))
    decreases |rules|
  {
    hide Square, WritableRule, WriteRule;
    if rules == [] {
      SquareNothing();
    } else {
      RuleSquare(s, rules[0]);
      RulesSquare(s, rules[1..]);
      SquareConcat(WriteRule(s, rules[0]), WriteRules(s, rules[1..]));
    }
  }

  lemma {:induction false} MetaSquare(m: Meta)
    requires WritableMeta(m)
    ensures Square(WriteMeta(m))
  {
    hide Square, Identifier;
    var value := match m.value case NoValue => [] case NameValue(v) => [Token(Name, v)]
                               case LiteralValue(v) => [Token(String, v)];
    IdentifierIsNoBracket(m.name);
    SquareNothing();
    match m.value {
      case NoValue =>
      case NameValue(v) =>
        IdentifierIsNoBracket(v);
        SquareToken(Token(Name, v));
      case LiteralValue(v) => SquareToken(Token(String, v));
    }
    SquareBetween(Token(Name, m.name), value, LineEnd);
    SquareBetween(Token(Name, m.name), value + [LineEnd], LineEnd);
    SquareToken(LineEnd);
    SquareConcat(value, [LineEnd]);
    SquareBetween(Punct("@"), [Token(Name, m.name)] + (value + [LineEnd]), LineEnd);
    MetaTokens(m);
  }

  lemma {:induction false} MetaTokens(m: Meta)
    ensures var value := match m.value case NoValue => [] case NameValue(v) => [Token(Name, v)]
                                       case LiteralValue(v) => [Token(String, v)];
            WriteMeta(m) == [Punct("@")] + ([Token(Name, m.name)] + (value + [LineEnd]))
  {
  }

  lemma {:induction false} MetasSquare(metas: seq<Meta>)
    requires forall m :: m in metas ==> WritableMeta(m)
    ensures Square(WriteMetas(metas))
    decreases |metas|
  {
    hide Square, WritableMeta, WriteMeta;
    if metas == [] {
      SquareNothing();
    } else {
      MetaSquare(metas[0]);
      MetasSquare(metas[1..]);
      SquareConcat(WriteMeta(metas[0]), WriteMetas(metas[1..]));
    }
  }

  lemma {:induction false} SaneConcat(a: seq<Token>, b: seq<Token>)
    requires Sane(a) && Sane(b)
    ensures Sane(a + b)
  {
  }

  // Types and actions that the parser reads are square, too.

  lemma {:induction false} AtomsStop(ts: Tokens, i: nat)
    requires i <= |ts|
    ensures TargetAtoms(ts, i).Ok? ==> TargetAtoms(ts, TargetAtoms(ts, i).end).Fail?
    decreases |ts| - i
  {
    hide TargetAtom;
    var atom := TargetAtom(ts, i);
    if atom.Ok? {
      AtomsStop(ts, atom.end);
    }
  }

  lemma {:induction false} CodeIsRead(ts: Tokens, k: nat)
    requires k < |ts| && ts[k] == Token(GrammarAction, "]")
    ensures TargetAtoms(ts, k).Ok?
  {
    assert Trim("]") == "]";
    assert TargetAtom(ts, k) == Ok("]", k + 1);
  }

  /** Where no target atom can be read, the text `]` is a bracket. */
  lemma {:induction false} ClosingBracket(ts: Tokens, k: nat)
    requires Sane(ts) && k <= |ts| && TargetAtoms(ts, k).Fail? && Expect(ts, k, "]").Ok?
    ensures k < |ts| && Net(ts[k]) == -1
  {
    hide TargetAtoms;
    if ts[k] == Token(GrammarAction, "]") {
      CodeIsRead(ts, k);
    }
  }

  /** What a pair of brackets holds and where it closes, when target atoms are read in it. */
  lemma {:induction false} PairRead(ts: Tokens, i: nat, e: nat)
    requires Sane(ts) && i < |ts| && Net(ts[i]) == 1
    requires e == if TargetAtoms(ts, i + 1).Ok? then TargetAtoms(ts, i + 1).end else i + 1
    requires e <= |ts| && Even(ts[i + 1..e]) && Expect(ts, e, "]").Ok?
    ensures e < |ts| && Net(ts[e]) == -1 && At(ts, i, [ts[i]] + (ts[i + 1..e] + [ts[e]]))
    ensures Even(ts[i..e + 1])
  {
    hide TargetAtoms, Even, Net;
    AtomsStop(ts, i + 1);
    ClosingBracket(ts, e);
    EvenBrackets(ts[i], ts[i + 1..e], ts[e]);
    assert ts[i..e + 1] == [ts[i]] + (ts[i + 1..e] + [ts[e]]);
  }

  lemma {:induction false} NoTokens(ts: Tokens, i: nat)
    requires i <= |ts|
    ensures Even(ts[i..i])
  {
    assert ts[i..i] == [];
  }

  lemma {:induction false} OneToken(ts: Tokens, i: nat)
    requires i < |ts| && Net(ts[i]) == 0
    ensures Even(ts[i..i + 1])
  {
    assert ts[i..i + 1] == [ts[i]];
    EvenToken(ts[i]);
  }

  lemma {:induction false} TwoTokens(ts: Tokens, i: nat)
    requires i + 1 < |ts| && Net(ts[i]) == 0 && Net(ts[i + 1]) == 0
    ensures Even(ts[i..i + 2])
  {
    OneToken(ts, i);
    OneToken(ts, i + 1);
    EvenConcat(ts[i..i + 1], ts[i + 1..i + 2]);
    assert ts[i..i + 2] == ts[i..i + 1] + ts[i + 1..i + 2];
  }

  /** An atom without brackets is one token, or a name and its star. */
  lemma {:induction false} PlainAtomRead(ts: Tokens, i: nat)
    requires Sane(ts) && i <= |ts| && Expect(ts, i, "[").Fail?
    ensures TargetAtom(ts, i).Ok? ==> i < |ts| && Net(ts[i]) == 0 && TargetAtom(ts, i).end in {i + 1, i + 2}
    ensures TargetAtom(ts, i).Ok? && TargetAtom(ts, i).end == i + 2 ==> i + 1 < |ts| && ts[i + 1].value == "*"
  {
    hide Trim, TargetAtoms;
  }

  lemma {:induction false} PlainAtomEven(ts: Tokens, i: nat)
    requires Sane(ts) && i <= |ts| && Expect(ts, i, "[").Fail?
    ensures TargetAtom(ts, i).Ok? ==> Even(ts[i..TargetAtom(ts, i).end])
  {
    hide Even, TargetAtom, Expect;
    PlainAtomRead(ts, i);
    if TargetAtom(ts, i).Ok? {
      if TargetAtom(ts, i).end == i + 1 {
        OneToken(ts, i);
      } else {
        TwoTokens(ts, i);
      }
    }
  }

  /** Where a bracket opens, the atom goes to the bracket that closes it. */
  lemma {:induction false} NestedAtomRead(ts: Tokens, i: nat)
    requires i < |ts| && ts[i].kind != GrammarAction && Expect(ts, i, "[").Ok? && TargetAtom(ts, i).Ok?
    ensures var e := if TargetAtoms(ts, i + 1).Ok? then TargetAtoms(ts, i + 1).end else i + 1;
            TargetAtom(ts, i).end == e + 1 && Expect(ts, e, "]").Ok? && Net(ts[i]) == 1
  {
    hide TargetAtoms, Trim;
  }

  lemma {:induction false} TargetAtomEven(ts: Tokens, i: nat)
    requires Sane(ts) && i <= |ts|
    ensures TargetAtom(ts, i).Ok? ==> Even(ts[i..TargetAtom(ts, i).end])
    decreases |ts| - i, 0
  {
    hide Even, Sane, TargetAtom, TargetAtoms, Expect;
    var atom := TargetAtom(ts, i);
    if atom.Ok? {
      if ts[i].kind == GrammarAction {
        CodeAlone(ts, i);
        OneToken(ts, i);
      } else if Expect(ts, i, "[").Ok? {
        TargetAtomsEven(ts, i + 1);
        NoTokens(ts, i + 1);
        NestedAtomRead(ts, i);
        PairRead(ts, i, atom.end - 1);
      } else {
        PlainAtomEven(ts, i);
      }
    }
  }

  lemma {:induction false} CodeAlone(ts: Tokens, i: nat)
    requires i < |ts| && ts[i].kind == GrammarAction
    ensures TargetAtom(ts, i) == Ok(Trim(ts[i].value), i + 1) && Net(ts[i]) == 0
  {
    hide TargetAtoms, Trim;
  }

  lemma {:induction false} TargetAtomsEven(ts: Tokens, i: nat)
    requires Sane(ts) && i <= |ts|
    ensures TargetAtoms(ts, i).Ok? ==> Even(ts[i..TargetAtoms(ts, i).end])
    decreases |ts| - i, 1
  {
    hide Even, TargetAtom, Sane;
    var atom, atoms := TargetAtom(ts, i), TargetAtoms(ts, i);
    if atoms.Ok? {
      TargetAtomEven(ts, i);
      TargetAtomsEven(ts, atom.end);
      if atom.end != atoms.end {
        EvenConcat(ts[i..atom.end], ts[atom.end..atoms.end]);
        assert ts[i..atoms.end] == ts[i..atom.end] + ts[atom.end..atoms.end];
      }
    }
  }

  lemma {:induction false} AnnotationRead(ts: Tokens, i: nat)
    requires Sane(ts) && i < |ts| && ts[i] == Punct("[") && Annotation(ts, i).Ok?
    ensures var e := Annotation(ts, i).end;
            i + 1 < e && Even(ts[i + 1..e - 1]) && Net(ts[e - 1]) == -1
            && At(ts, i, [ts[i]] + (ts[i + 1..e - 1] + [ts[e - 1]]))
  {
    hide TargetAtoms, Even;
    TargetAtomsEven(ts, i + 1);
    PairRead(ts, i, Annotation(ts, i).end - 1);
  }

  /** No equals sign follows what could be read as a type at the index. */
  predicate NoType(ts: Tokens, i: nat) {
    i <= |ts| && Then(ts, Annotation(ts, i), "=").Fail?
  }

  /** Brackets that are written and not followed by an equals sign are not the type of a name before them. */
  lemma {:induction false} BracketsAreNoType(ts: Tokens, i: nat, inner: seq<Token>)
    requires Sane(ts) && Square(inner) && At(ts, i, [Punct("[")] + (inner + [Punct("]")]))
    requires var j := i + |inner| + 2; j == |ts| || (j < |ts| && ts[j].value != "=")
    ensures NoType(ts, i)
  {
    hide Annotation, Sane, Even;
    AtInside(ts, i, Punct("["), inner, Punct("]"));
    if Annotation(ts, i).Ok? {
      var e := Annotation(ts, i).end;
      AnnotationRead(ts, i);
      PairsAgree(ts, i, ts[i + 1..e - 1], inner, Punct("["), ts[e - 1], Punct("]"));
    }
  }
}
