/**
 Reading what was written: the tokens of a grammar, written in any style, are
 read back as that grammar by the recursive descent of the parser.
 */
module GrammarReading {
  import opened Wrappers
  import opened GrammarTree
  import opened GrammarDescent
  import opened GrammarPrinter
  import opened GrammarWriting
  import opened GrammarBrackets

  // Types and actions

  /** A target atom cannot be read at the index. */
  predicate ClosesAtoms(ts: Tokens, j: nat) {
    j < |ts| && ts[j] in {Punct("]"), Punct("}")}
  }

  lemma {:induction false} NoMoreAtoms(ts: Tokens, j: nat)
    requires ClosesAtoms(ts, j)
    ensures TargetAtom(ts, j).Fail? && TargetAtoms(ts, j).Fail?
  {
  }

  lemma {:induction false} BracketsDropTheirAtoms(ts: Tokens, i: nat, e: nat)
    requires i < e < |ts| && ts[i] == Punct("[") && ts[e] == Punct("]")
    requires e == if TargetAtoms(ts, i + 1).Ok? then TargetAtoms(ts, i + 1).end else i + 1
    ensures TargetAtom(ts, i) == Ok("[]", e + 1)
  {
    hide TargetAtoms;
  }

  lemma {:induction false} OneTokenAtom(ts: Tokens, i: nat, a: Atom)
    requires GoodAtom(a) && !a.StarWord? && !a.Nested? && i < |ts| && AtomTokens(a) == [ts[i]]
    requires a.Word? ==> i + 1 < |ts| && ts[i + 1].value != "*"
    ensures TargetAtom(ts, i) == Ok(AtomText(a), i + 1)
  {
    hide TargetAtoms, Trim;
    match a
    case Word(v) => assert v[0] in v;
    case Code(v) =>
    case Num(v) => assert v != "[" by { assert "["[0] == '['; }
    case Str(v) =>
    case Sign(v) =>
  }

  lemma {:induction false} StarAtom(ts: Tokens, i: nat, v: string)
    requires Identifier(v) && i + 1 < |ts| && ts[i] == Token(Name, v) && ts[i + 1] == Punct("*")
    ensures TargetAtom(ts, i) == Ok(v + "*", i + 2)
  {
    hide TargetAtoms;
    assert v[0] in v;
  }

  lemma {:induction false} TargetAtomBack(ts: Tokens, i: nat, a: Atom)
    requires GoodAtom(a) && At(ts, i, AtomTokens(a)) && i + |AtomTokens(a)| < |ts|
    requires a.Word? ==> ts[i + |AtomTokens(a)|].value != "*"
    ensures TargetAtom(ts, i) == Ok(AtomText(a), i + |AtomTokens(a)|)
    decreases a, 0
  {
    hide TargetAtom, TargetAtoms, Trim, At;
    match a
    case StarWord(v) =>
      AtHead(ts, i, Token(Name, v), [Punct("*")]);
      AtFirst(ts, i + 1, [Punct("*")]);
      StarAtom(ts, i, v);
    case Nested(atoms) =>
      var inner := AtomsTokens(atoms);
      AtInside(ts, i, Punct("["), inner, Punct("]"));
      TargetAtomsBack(ts, i + 1, atoms);
      BracketsDropTheirAtoms(ts, i, i + 1 + |inner|);
    case _ =>
      AtFirst(ts, i, AtomTokens(a));
      OneTokenAtom(ts, i, a);
  }

  lemma {:induction false} AtomIsTruthy(a: Atom)
    requires GoodAtom(a)
    ensures TruthyText(AtomText(a)) && AtomTokens(a) != []
  {
    if a.StarWord? {
      assert |a.text + "*"| > 1;
    }
  }

  /** After a word no star follows that is not its own. */
  lemma {:induction false} NoStarNext(atoms: seq<Atom>)
    requires GoodAtoms(atoms) && |atoms| > 1 && atoms[0].Word?
    ensures AtomTokens(atoms[1]) != [] && AtomTokens(atoms[1])[0].value != "*"
  {
    var a := atoms[1];
    assert atoms[1..][0] == a;
    assert GoodAtom(a);
    match a
    case Word(v) => assert v[0] in v;
    case StarWord(v) => assert v[0] in v;
    case _ =>
  }

  lemma {:induction false} AtomsTokensSplit(atoms: seq<Atom>)
    ensures atoms == [] ==> AtomsTokens(atoms) == []
    ensures atoms != [] ==> AtomsTokens(atoms) == AtomTokens(atoms[0]) + AtomsTokens(atoms[1..])
  {
  }

  lemma {:induction false} OneMoreAtom(ts: Tokens, i: nat, text: string, j: nat)
    requires i <= |ts| && TargetAtom(ts, i) == Ok(text, j) && TruthyText(text)
    ensures TargetAtoms(ts, i) ==
      var more := TargetAtoms(ts, j);
      if more.Ok? then Ok(text + " " + more.value, more.end) else Ok(text, j)
  {
    hide TargetAtom;
  }

  lemma {:induction false} EndsAtoms(ts: Tokens, j: nat)
    requires ClosesAtoms(ts, j)
    ensures j < |ts| && ts[j].value != "*"
  {
  }

  lemma {:induction false} TargetAtomsBack(ts: Tokens, i: nat, atoms: seq<Atom>)
    requires GoodAtoms(atoms) && At(ts, i, AtomsTokens(atoms)) && ClosesAtoms(ts, i + |AtomsTokens(atoms)|)
    ensures TargetAtoms(ts, i) == if atoms == [] then Fail else Ok(AtomsText(atoms), i + |AtomsTokens(atoms)|)
    decreases atoms, 0
  {
    hide TargetAtom, TargetAtoms, AtomTokens, AtomsTokens, GoodAtom, AtomText, At, ClosesAtoms;
    EndsAtoms(ts, i + |AtomsTokens(atoms)|);
    NoMoreAtoms(ts, i + |AtomsTokens(atoms)|);
    AtomsTokensSplit(atoms);
    if atoms != [] {
      var first, rest := AtomTokens(atoms[0]), AtomsTokens(atoms[1..]);
      AtomsTokensSplit(atoms[1..]);
      AtSplit(ts, i, first, rest);
      var j := i + |first|;
      TargetAtomsBack(ts, j, atoms[1..]);
      if |atoms| > 1 {
        AtSplit(ts, j, AtomTokens(atoms[1]), AtomsTokens(atoms[1..][1..]));
        if atoms[0].Word? {
          NoStarNext(atoms);
          AtFirst(ts, j, AtomTokens(atoms[1]));
        }
      }
      TargetAtomBack(ts, i, atoms[0]);
      AtomIsTruthy(atoms[0]);
      OneMoreAtom(ts, i, AtomText(atoms[0]), j);
    }
  }

  lemma {:induction false} SpellingBack(ts: Tokens, i: nat, s: Style, text: string)
    requires Spelled(s, text) && At(ts, i, Spelling(s, text)) && ClosesAtoms(ts, i + |Spelling(s, text)|)
    ensures TargetAtoms(ts, i) == Ok(text, i + |Spelling(s, text)|)
  {
    hide TargetAtoms, AtomsTokens, AtomsText, GoodAtoms, ClosesAtoms, At;
    TargetAtomsBack(ts, i, s.spelling[text]);
  }

  lemma {:induction false} ActionBack(ts: Tokens, i: nat, s: Style, text: string)
    requires Spelled(s, text) && At(ts, i, [Punct("{")] + (Spelling(s, text) + [Punct("}")]))
    ensures Action(ts, i) == Ok(text, i + |Spelling(s, text)| + 2)
  {
    hide TargetAtoms, Spelling, Spelled;
    AtInside(ts, i, Punct("{"), Spelling(s, text), Punct("}"));
    SpellingBack(ts, i + 1, s, text);
  }

  lemma {:induction false} AnnotationBack(ts: Tokens, i: nat, s: Style, text: string)
    requires Spelled(s, text) && At(ts, i, InBrackets(s, text))
    ensures Annotation(ts, i) == Ok(text, i + |InBrackets(s, text)|)
  {
    hide TargetAtoms, Spelling, Spelled;
    AtInside(ts, i, Punct("["), Spelling(s, text), Punct("]"));
    SpellingBack(ts, i + 1, s, text);
  }

  // What may stand where

  /** What may stand after a list of items. */
  predicate EndsItems(t: Token) {
    t in {Punct(")"), Punct("]"), Punct("|"), Punct("{"), Dollar, LineEnd}
  }

  predicate EndsAlt(t: Token) {
    t in {Punct(")"), Punct("]"), Punct("|"), LineEnd}
  }

  predicate EndsAlts(t: Token) {
    t in {Punct(")"), Punct("]"), LineEnd}
  }

  /** What would make more of the atom before it. */
  predicate Extends(t: Token) {
    t.value in {"?", "*", "+", "."}
  }

  predicate StartsItem(t: Token) {
    || (t.kind == Name && Identifier(t.value)) || (t.kind == String && Quoted(t.value))
    || t in {Punct("("), Punct("["), Punct("&"), Punct("!"), Punct("~")}
  }

  lemma {:induction false} StartsNothingElse(t: Token)
    requires StartsItem(t)
    ensures !Extends(t) && t.value !in {"=", "|", "{", "$", ":"}
  {
    if t.kind == Name {
      assert t.value[0] in t.value;
    }
  }

  /** What stands at the index makes nothing more of an item that ends there. */
  predicate FollowsItem(ts: Tokens, j: nat) {
    j < |ts| && !Extends(ts[j]) && ts[j].value != "=" && NoType(ts, j)
  }

  lemma {:induction false} NoBracketHere(ts: Tokens, j: nat)
    requires j < |ts| && ts[j].value != "["
    ensures NoType(ts, j) && Annotation(ts, j).Fail?
  {
    hide TargetAtoms;
  }

  lemma {:induction false} EndFollows(ts: Tokens, j: nat)
    requires j < |ts| && EndsItems(ts[j])
    ensures FollowsItem(ts, j)
  {
    hide NoType;
    NoBracketHere(ts, j);
  }

  lemma {:induction false} ItemStarts(s: Style, x: Item)
    requires Writable(s, x)
    ensures WriteItem(s, x) != [] && StartsItem(WriteItem(s, x)[0])
    ensures IsAtom(x) ==> WriteItem(s, x)[0].value !in {"&", "["}
    decreases x
  {
    match x
    case NameLeaf(v) => assert v[0] in v;
    case StringLeaf(v) =>
    case Group(_) =>
    case Opt(n) =>
      if !n.RhsItem? {
        ItemStarts(s, n);
      }
    case Repeat0(n) => ItemStarts(s, n);
    case Repeat1(n) => ItemStarts(s, n);
    case Gather(separator, n) => ItemStarts(s, separator);
    case Forced(n) =>
    case PositiveLookahead(n) =>
    case NegativeLookahead(n) =>
    case Cut =>
  }

  /** An item that begins with a name is that name, or goes on with a mark. */
  lemma {:induction false} NameFirst(s: Style, x: Item)
    requires Writable(s, x) && WriteItem(s, x) != [] && WriteItem(s, x)[0].kind == Name
    ensures var written := WriteItem(s, x);
            || (|written| == 1 && x == NameLeaf(written[0].value))
            || (|written| > 1 && Extends(written[1]) && written[1].kind == Op)
  {
    match x
    case Opt(n) =>
      if !n.RhsItem? {
        assert IsAtom(n);
      }
    case Repeat0(n) => assert IsAtom(n);
    case Repeat1(n) => assert IsAtom(n);
    case Gather(separator, n) => assert IsAtom(separator);
    case _ =>
  }

  /** Only the contents of square brackets are written with one in front. */
  lemma {:induction false} BracketFirst(s: Style, x: Item)
    requires Writable(s, x) && WriteItem(s, x) != [] && WriteItem(s, x)[0].value == "["
    ensures x.Opt? && x.node.RhsItem? && WritableRhs(s, x.node.rhs)
    ensures WriteItem(s, x) == [Punct("[")] + (WriteAlts(s, x.node.rhs.alts) + [Punct("]")])
  {
    match x
    case NameLeaf(v) => IdentifierIsNoBracket(v);
    case StringLeaf(v) =>
    case Opt(n) =>
      if !n.RhsItem? {
        ItemStarts(s, n);
      }
    case Repeat0(n) => ItemStarts(s, n);
    case Repeat1(n) => ItemStarts(s, n);
    case Gather(separator, n) => ItemStarts(s, separator);
    case _ =>
  }

  // How the parts of an item make up the item.

  lemma {:induction false} PlainItem(ts: Tokens, i: nat, x: Item, j: nat)
    requires i < |ts| && ts[i].value != "[" && AtomAt(ts, i) == Ok(x, j)
    requires j < |ts| && !Extends(ts[j])
    ensures ItemAt(ts, i) == Ok(x, j)
  {
    hide AtomAt, Alts;
  }

  lemma {:induction false} MarkedItem(ts: Tokens, i: nat, x: Item, j: nat)
    requires i < |ts| && ts[i].value != "[" && AtomAt(ts, i) == Ok(x, j) && j < |ts|
    ensures ts[j] == Punct("?") ==> ItemAt(ts, i) == Ok(Opt(x), j + 1)
    ensures ts[j] == Punct("*") ==> ItemAt(ts, i) == Ok(Repeat0(x), j + 1)
    ensures ts[j] == Punct("+") ==> ItemAt(ts, i) == Ok(Repeat1(x), j + 1)
  {
    hide AtomAt, Alts;
  }

  lemma {:induction false} GatheredItem(ts: Tokens, i: nat, s: Item, j: nat, n: Item, k: nat)
    requires i < |ts| && ts[i].value != "[" && AtomAt(ts, i) == Ok(s, j)
    requires j < |ts| && ts[j] == Punct(".") && AtomAt(ts, j + 1) == Ok(n, k)
    requires k < |ts| && ts[k] == Punct("+")
    ensures ItemAt(ts, i) == Ok(Gather(s, n), k + 1)
  {
    hide AtomAt, Alts;
    assert Marked(ts, i, "?").Fail? && Marked(ts, i, "*").Fail? && Marked(ts, i, "+").Fail?;
    assert GatherAt(ts, i) == Ok(Gather(s, n), k + 1);
  }

  lemma {:induction false} BracketItem(ts: Tokens, i: nat, r: Rhs, j: nat)
    requires i < |ts| && ts[i] == Punct("[") && Alts(ts, i + 1) == Ok(r, j)
    requires j < |ts| && ts[j] == Punct("]")
    ensures ItemAt(ts, i) == Ok(Opt(RhsItem(r)), j + 1)
  {
    hide AtomAt, Alts;
  }

  lemma {:induction false} GroupAtom(ts: Tokens, i: nat, r: Rhs, j: nat)
    requires i < |ts| && ts[i] == Punct("(") && Alts(ts, i + 1) == Ok(r, j)
    requires j < |ts| && ts[j] == Punct(")")
    ensures AtomAt(ts, i) == Ok(Group(r), j + 1)
  {
    hide Alts;
  }

  lemma {:induction false} LeafAtom(ts: Tokens, i: nat, v: string)
    requires i < |ts|
    ensures ts[i] == Token(Name, v) && Identifier(v) ==> AtomAt(ts, i) == Ok(NameLeaf(v), i + 1)
    ensures ts[i] == Token(String, v) && Quoted(v) ==> AtomAt(ts, i) == Ok(StringLeaf(v), i + 1)
  {
    hide Alts;
    if Identifier(v) {
      assert v[0] in v;
    }
  }

  lemma {:induction false} NoAtomHere(ts: Tokens, i: nat)
    requires i < |ts| && ts[i].kind != Name && ts[i].kind != String && ts[i].value != "("
    ensures AtomAt(ts, i).Fail?
    ensures ts[i].value != "[" ==> ItemAt(ts, i).Fail?
  {
    hide Alts;
  }

  lemma {:induction false} NoItemHere(ts: Tokens, i: nat)
    requires i < |ts| && EndsItems(ts[i])
    ensures Items(ts, i).Fail? && Alts(ts, i).Fail?
  {
    hide AtomAt, ItemAt, Annotation;
    NoAtomHere(ts, i);
    assert TypedBinding(ts, i).Fail? && PlainBinding(ts, i).Fail?;
    assert ForcedAtom(ts, i).Fail? && LookaheadAt(ts, i).Fail?;
    assert NamedItemAt(ts, i).Fail?;
  }

  lemma {:induction false} SignedAtom(ts: Tokens, i: nat, a: Item, j: nat)
    requires i < |ts| && (ts[i] == Punct("&") || ts[i] == Punct("!")) && AtomAt(ts, i + 1) == Ok(a, j)
    requires i + 1 < |ts| && ts[i + 1].value != "&"
    ensures ForcedAtom(ts, i).Fail?
    ensures LookaheadAt(ts, i) == Ok(if ts[i] == Punct("&") then PositiveLookahead(a) else NegativeLookahead(a), j)
  {
    hide AtomAt;
  }

  lemma {:induction false} CutSign(ts: Tokens, i: nat)
    requires i < |ts| && ts[i] == Punct("~")
    ensures ForcedAtom(ts, i).Fail? && LookaheadAt(ts, i) == Ok(Cut, i + 1)
  {
    hide AtomAt;
  }

  lemma {:induction false} TwoSigns(ts: Tokens, i: nat, a: Item, j: nat)
    requires i + 1 < |ts| && ts[i] == Punct("&") && ts[i + 1] == Punct("&") && AtomAt(ts, i + 2) == Ok(a, j)
    ensures ForcedAtom(ts, i) == Ok(Forced(a), j)
  {
    hide AtomAt;
  }

  // Items that are written are read back.

  lemma {:induction false} AtomBack(ts: Tokens, i: nat, s: Style, x: Item)
    requires Sane(ts) && IsAtom(x) && Writable(s, x) && At(ts, i, WriteItem(s, x))
    ensures AtomAt(ts, i) == Ok(x, i + |WriteItem(s, x)|)
    decreases x, 0
  {
    hide Alts, AtomAt, Sane;
    match x
    case NameLeaf(v) =>
      AtFirst(ts, i, [Token(Name, v)]);
      LeafAtom(ts, i, v);
    case StringLeaf(v) =>
      AtFirst(ts, i, [Token(String, v)]);
      LeafAtom(ts, i, v);
    case Group(r) =>
      var inner := WriteAlts(s, r.alts);
      AtInside(ts, i, Punct("("), inner, Punct(")"));
      AltsBack(ts, i + 1, s, r.alts);
      GroupAtom(ts, i, r, i + 1 + |inner|);
  }

  lemma {:induction false} MarkBack(ts: Tokens, i: nat, s: Style, n: Item, mark: Token)
    requires Sane(ts) && IsAtom(n) && Writable(s, n) && At(ts, i, WriteItem(s, n) + [mark])
    ensures var j := i + |WriteItem(s, n)|;
            i < |ts| && ts[i].value != "[" && AtomAt(ts, i) == Ok(n, j) && j < |ts| && ts[j] == mark
    decreases n, 1
  {
    hide Alts, AtomAt, Sane, WriteItem;
    var written := WriteItem(s, n);
    AtSplit(ts, i, written, [mark]);
    AtFirst(ts, i + |written|, [mark]);
    ItemStarts(s, n);
    AtFirst(ts, i, written);
    AtomBack(ts, i, s, n);
  }

  lemma {:induction false} GatherBack(ts: Tokens, i: nat, s: Style, separator: Item, n: Item)
    requires Sane(ts) && IsAtom(separator) && Writable(s, separator) && IsAtom(n) && Writable(s, n)
    requires At(ts, i, WriteItem(s, separator) + ([Punct(".")] + (WriteItem(s, n) + [Punct("+")])))
    ensures ItemAt(ts, i) == Ok(Gather(separator, n), i + |WriteItem(s, separator)| + |WriteItem(s, n)| + 2)
    decreases Gather(separator, n), 0
  {
    hide ItemAt, AtomAt, Alts, Sane, WriteItem, Writable, At;
    var a, b := WriteItem(s, separator), WriteItem(s, n);
    var tail := b + [Punct("+")];
    assert a + ([Punct(".")] + tail) == (a + [Punct(".")]) + tail;
    AtSplit(ts, i, a + [Punct(".")], tail);
    MarkBack(ts, i, s, separator, Punct("."));
    MarkBack(ts, i + |a| + 1, s, n, Punct("+"));
    GatheredItem(ts, i, separator, i + |a|, n, i + |a| + 1 + |b|);
  }

  lemma {:induction false} BracketsBack(ts: Tokens, i: nat, s: Style, r: Rhs)
    requires Sane(ts) && WritableRhs(s, r) && At(ts, i, [Punct("[")] + (WriteAlts(s, r.alts) + [Punct("]")]))
    ensures ItemAt(ts, i) == Ok(Opt(RhsItem(r)), i + |WriteAlts(s, r.alts)| + 2)
    decreases r, 1
  {
    hide ItemAt, Alts, Sane, At, WriteAlts, WritableAlt;
    var inner := WriteAlts(s, r.alts);
    AtInside(ts, i, Punct("["), inner, Punct("]"));
    AltsBack(ts, i + 1, s, r.alts);
    BracketItem(ts, i, r, i + 1 + |inner|);
  }

  lemma {:induction false} ItemBack(ts: Tokens, i: nat, s: Style, x: Item)
    requires Sane(ts) && Writable(s, x) && At(ts, i, WriteItem(s, x))
    requires i + |WriteItem(s, x)| < |ts| && !Extends(ts[i + |WriteItem(s, x)|])
    requires !x.Forced? && !x.PositiveLookahead? && !x.NegativeLookahead? && !x.Cut?
    ensures ItemAt(ts, i) == Ok(x, i + |WriteItem(s, x)|)
    decreases x, 2
  {
    hide ItemAt, AtomAt, Alts, Sane, At, WriteAlts;
    match x
    case Opt(n) =>
      if n.RhsItem? {
        BracketsBack(ts, i, s, n.rhs);
      } else {
        MarkBack(ts, i, s, n, Punct("?"));
        MarkedItem(ts, i, n, i + |WriteItem(s, n)|);
      }
    case Repeat0(n) =>
      MarkBack(ts, i, s, n, Punct("*"));
      MarkedItem(ts, i, n, i + |WriteItem(s, n)|);
    case Repeat1(n) =>
      MarkBack(ts, i, s, n, Punct("+"));
      MarkedItem(ts, i, n, i + |WriteItem(s, n)|);
    case Gather(separator, n) =>
      GatherBack(ts, i, s, separator, n);
    case NameLeaf(_) | StringLeaf(_) | Group(_) =>
      ItemStarts(s, x);
      AtFirst(ts, i, WriteItem(s, x));
      AtomBack(ts, i, s, x);
      PlainItem(ts, i, x, i + |WriteItem(s, x)|);
  }

  /** Forced atoms, lookaheads and cuts are read back by their rules. */
  lemma {:induction false} SignBack(ts: Tokens, i: nat, s: Style, x: Item)
    requires Sane(ts) && Writable(s, x) && At(ts, i, WriteItem(s, x))
    requires x.Forced? || x.PositiveLookahead? || x.NegativeLookahead? || x.Cut?
    ensures ItemAt(ts, i).Fail?
    ensures x.Forced? ==> ForcedAtom(ts, i) == Ok(x, i + |WriteItem(s, x)|)
    ensures !x.Forced? ==> ForcedAtom(ts, i).Fail? && LookaheadAt(ts, i) == Ok(x, i + |WriteItem(s, x)|)
    decreases x, 2
  {
    hide ItemAt, AtomAt, LookaheadAt, ForcedAtom, At, Sane;
    if x.Cut? {
      AtFirst(ts, i, [Punct("~")]);
      CutSign(ts, i);
    } else {
      var sign := if x.NegativeLookahead? then Punct("!") else Punct("&");
      var written := WriteItem(s, x.node);
      ItemStarts(s, x.node);
      if x.Forced? {
        AtHead(ts, i, sign, [sign] + written);
        AtHead(ts, i + 1, sign, written);
        AtomBack(ts, i + 2, s, x.node);
        TwoSigns(ts, i, x.node, i + 2 + |written|);
      } else {
        AtHead(ts, i, sign, written);
        AtFirst(ts, i + 1, written);
        AtomBack(ts, i + 1, s, x.node);
        SignedAtom(ts, i, x.node, i + 1 + |written|);
      }
    }
    NoAtomHere(ts, i);
  }

  // Names and types of items

  lemma {:induction false} TypedName(ts: Tokens, i: nat, name: string, annotation: string, j: nat)
    requires i < |ts| && ts[i] == Token(Name, name) && Annotation(ts, i + 1) == Ok(annotation, j)
    requires j < |ts| && ts[j] == Punct("=")
    ensures TypedBinding(ts, i) == Ok(RuleName(name, Some(annotation)), j + 1)
  {
    hide Annotation;
  }

  lemma {:induction false} TypeAt(ts: Tokens, i: nat, s: Style, name: string, annotation: string)
    requires Spelled(s, annotation)
    requires At(ts, i, [Token(Name, name)] + (InBrackets(s, annotation) + [Punct("=")]))
    ensures TypedBinding(ts, i) == Ok(RuleName(name, Some(annotation)), i + 2 + |InBrackets(s, annotation)|)
  {
    hide Spelled, InBrackets, Annotation, TypedBinding, At;
    var brackets := InBrackets(s, annotation);
    AtHead(ts, i, Token(Name, name), brackets + [Punct("=")]);
    AtSplit(ts, i + 1, brackets, [Punct("=")]);
    AtFirst(ts, i + 1 + |brackets|, [Punct("=")]);
    AnnotationBack(ts, i + 1, s, annotation);
    TypedName(ts, i, name, annotation, i + 1 + |brackets|);
  }

  lemma {:induction false} TypeBack(ts: Tokens, i: nat, s: Style, n: NamedItem)
    requires n.name.Some? && n.annotation.Some? && Spelled(s, n.annotation.value) && At(ts, i, WriteName(s, n))
    ensures TypedBinding(ts, i) == Ok(RuleName(n.name.value, n.annotation), i + |WriteName(s, n)|)
  {
    hide Spelled, InBrackets, TypedBinding, At;
    TypeAt(ts, i, s, n.name.value, n.annotation.value);
  }

  lemma {:induction false} PlainName(ts: Tokens, i: nat, name: string)
    requires i + 1 < |ts| && ts[i] == Token(Name, name) && ts[i + 1] == Punct("=")
    ensures TypedBinding(ts, i).Fail? && PlainBinding(ts, i) == Ok(name, i + 2)
  {
    hide Annotation;
    NoBracketHere(ts, i + 1);
  }

  lemma {:induction false} NameBack(ts: Tokens, i: nat, s: Style, n: NamedItem)
    requires n.name.Some? && n.annotation.None? && At(ts, i, WriteName(s, n))
    ensures TypedBinding(ts, i).Fail? && PlainBinding(ts, i) == Ok(n.name.value, i + |WriteName(s, n)|)
  {
    hide TypedBinding, PlainBinding, At, InBrackets;
    AtHead(ts, i, Token(Name, n.name.value), [Punct("=")]);
    AtFirst(ts, i + 1, [Punct("=")]);
    PlainName(ts, i, n.name.value);
  }

  lemma {:induction false} NoNameHere(ts: Tokens, i: nat)
    requires i < |ts| && (ts[i].kind == Name ==> i + 1 < |ts| && ts[i + 1].value != "=" && NoType(ts, i + 1))
    ensures TypedBinding(ts, i).Fail? && PlainBinding(ts, i).Fail?
  {
    hide Annotation;
  }

  /** An item without a name is not taken for one with a name. */
  lemma {:induction false} NoNameBack(ts: Tokens, i: nat, s: Style, x: Item)
    requires Writable(s, x) && At(ts, i, WriteItem(s, x)) && FollowsItem(ts, i + |WriteItem(s, x)|)
    ensures TypedBinding(ts, i).Fail? && PlainBinding(ts, i).Fail?
  {
    hide TypedBinding, PlainBinding, NoType, WriteItem, Writable;
    var written := WriteItem(s, x);
    ItemStarts(s, x);
    AtFirst(ts, i, written);
    if ts[i].kind == Name {
      NameFirst(s, x);
      if |written| > 1 {
        AtIndex(ts, i, written, 1);
        NoBracketHere(ts, i + 1);
      }
    }
    NoNameHere(ts, i);
  }

  lemma {:induction false} ItemOfNamed(ts: Tokens, i: nat, j: nat, x: Item, k: nat)
    requires i <= |ts| && j <= |ts| && ItemAt(ts, j) == Ok(x, k)
    ensures TypedBinding(ts, i).Ok? && TypedBinding(ts, i).end == j ==>
              var typed := TypedBinding(ts, i).value;
              NamedItemAt(ts, i) == Ok(NamedItem(Some(typed.name), x, typed.annotation), k)
    ensures TypedBinding(ts, i).Fail? && PlainBinding(ts, i).Ok? && PlainBinding(ts, i).end == j ==>
              NamedItemAt(ts, i) == Ok(NamedItem(Some(PlainBinding(ts, i).value), x, None), k)
    ensures TypedBinding(ts, i).Fail? && PlainBinding(ts, i).Fail? && i == j ==>
              NamedItemAt(ts, i) == Ok(NamedItem(None, x, None), k)
  {
    hide ItemAt, TypedBinding, PlainBinding, ForcedAtom, LookaheadAt;
  }

  lemma {:induction false} SignOfNamed(ts: Tokens, i: nat)
    requires i <= |ts| && ItemAt(ts, i).Fail? && TypedBinding(ts, i).Fail? && PlainBinding(ts, i).Fail?
    ensures ForcedAtom(ts, i).Ok? ==>
              NamedItemAt(ts, i) == Ok(NamedItem(None, ForcedAtom(ts, i).value, None), ForcedAtom(ts, i).end)
    ensures ForcedAtom(ts, i).Fail? && LookaheadAt(ts, i).Ok? ==>
              NamedItemAt(ts, i) == Ok(NamedItem(None, LookaheadAt(ts, i).value, None), LookaheadAt(ts, i).end)
  {
    hide ItemAt, TypedBinding, PlainBinding, ForcedAtom, LookaheadAt;
  }

  lemma {:induction false} NamedItemBack(ts: Tokens, i: nat, s: Style, n: NamedItem)
    requires Sane(ts) && WritableNamedItem(s, n) && At(ts, i, WriteNamedItem(s, n))
    requires FollowsItem(ts, i + |WriteNamedItem(s, n)|)
    ensures NamedItemAt(ts, i) == Ok(n, i + |WriteNamedItem(s, n)|)
    decreases n, 0
  {
    hide ItemAt, TypedBinding, PlainBinding, ForcedAtom, LookaheadAt, NamedItemAt, At, Sane, Writable, WriteItem;
    hide NoType, WriteName, Spelled;
    var name, x := WriteName(s, n), n.item;
    AtSplit(ts, i, name, WriteItem(s, x));
    var j := i + |name|;
    if n.name.None? {
      NothingWritten(s, n);
      NoNameBack(ts, i, s, x);
    } else if n.annotation.None? {
      NameBack(ts, i, s, n);
    } else {
      TypeBack(ts, i, s, n);
    }
    if x.Forced? || x.PositiveLookahead? || x.NegativeLookahead? || x.Cut? {
      SignBack(ts, i, s, x);
      SignOfNamed(ts, i);
    } else {
      ItemBack(ts, j, s, x);
      ItemOfNamed(ts, i, j, x, j + |WriteItem(s, x)|);
    }
  }

  lemma {:induction false} NothingWritten(s: Style, n: NamedItem)
    requires n.name.None?
    ensures WriteName(s, n) == []
  {
  }

  // Lists of items

  lemma {:induction false} WriteItemsSplit(s: Style, items: seq<NamedItem>)
    ensures items == [] ==> WriteItems(s, items) == []
    ensures items != [] ==> WriteItems(s, items) == WriteNamedItem(s, items[0]) + WriteItems(s, items[1..])
  {
  }

  lemma {:induction false} NamedItemStarts(s: Style, n: NamedItem)
    requires WritableNamedItem(s, n)
    ensures WriteNamedItem(s, n) != [] && StartsItem(WriteNamedItem(s, n)[0])
    ensures WriteNamedItem(s, n)[0].value == "[" ==> WriteNamedItem(s, n) == WriteItem(s, n.item)
  {
    hide WriteItem, Writable;
    ItemStarts(s, n.item);
    if n.name.Some? {
      assert n.name.value[0] in n.name.value;
    }
  }

  lemma {:induction false} NextStarts(ts: Tokens, j: nat, s: Style, items: seq<NamedItem>)
    requires (forall n :: n in items ==> WritableNamedItem(s, n)) && At(ts, j, WriteItems(s, items))
    requires j + |WriteItems(s, items)| < |ts| && EndsItems(ts[j + |WriteItems(s, items)|])
    ensures j < |ts| && (if items == [] then EndsItems(ts[j]) else StartsItem(ts[j]))
  {
    hide WritableNamedItem, WriteNamedItem;
    if items != [] {
      NamedItemStarts(s, items[0]);
      AtFirst(ts, j, WriteItems(s, items));
    }
  }

  lemma {:induction false} NextFollows(ts: Tokens, j: nat, s: Style, items: seq<NamedItem>)
    requires Sane(ts) && (forall n :: n in items ==> WritableNamedItem(s, n)) && At(ts, j, WriteItems(s, items))
    requires j + |WriteItems(s, items)| < |ts| && EndsItems(ts[j + |WriteItems(s, items)|])
    ensures FollowsItem(ts, j)
  {
    hide WritableNamedItem, WriteNamedItem, WriteItems, At, NoType, Sane;
    NextStarts(ts, j, s, items);
    WriteItemsSplit(s, items);
    if items == [] {
      EndFollows(ts, j);
    } else {
      StartsNothingElse(ts[j]);
      if ts[j].value != "[" {
        NoBracketHere(ts, j);
      } else {
        OpenBracketFollows(ts, j, s, items);
      }
    }
  }

  lemma {:induction false} OpenBracketFollows(ts: Tokens, j: nat, s: Style, items: seq<NamedItem>)
    requires Sane(ts) && items != [] && (forall n :: n in items ==> WritableNamedItem(s, n))
    requires At(ts, j, WriteItems(s, items))
    requires j + |WriteItems(s, items)| < |ts| && EndsItems(ts[j + |WriteItems(s, items)|])
    requires j < |ts| && ts[j].value == "["
    ensures NoType(ts, j)
  {
    hide WriteNamedItem, WriteItems, WriteItem, WriteAlts, Writable, At, NoType, Sane, Square;
    var n, rest := items[0], items[1..];
    var written := WriteNamedItem(s, n);
    WriteItemsSplit(s, items);
    AtSplit(ts, j, written, WriteItems(s, rest));
    NamedItemStarts(s, n);
    AtFirst(ts, j, written);
    BracketFirst(s, n.item);
    AltsSquare(s, n.item.node.rhs.alts);
    var k := j + |written|;
    NextStarts(ts, k, s, rest);
    if rest != [] {
      StartsNothingElse(ts[k]);
    }
    BracketsAreNoType(ts, j, WriteAlts(s, n.item.node.rhs.alts));
  }

  lemma {:induction false} OneMoreItem(ts: Tokens, i: nat, n: NamedItem, j: nat)
    requires i <= |ts| && NamedItemAt(ts, i) == Ok(n, j)
    ensures Items(ts, j).Fail? ==> Items(ts, i) == Ok([n], j)
    ensures Items(ts, j).Ok? ==> Items(ts, i) == Ok([n] + Items(ts, j).value, Items(ts, j).end)
  {
    hide NamedItemAt;
  }

  lemma {:induction false} ItemsBack(ts: Tokens, i: nat, s: Style, items: seq<NamedItem>)
    requires Sane(ts) && items != [] && forall n :: n in items ==> WritableNamedItem(s, n)
    requires At(ts, i, WriteItems(s, items))
    requires i + |WriteItems(s, items)| < |ts| && EndsItems(ts[i + |WriteItems(s, items)|])
    ensures Items(ts, i) == Ok(items, i + |WriteItems(s, items)|)
    decreases items, 0
  {
    hide Items, NamedItemAt, WritableNamedItem, WriteNamedItem, WriteItems, At, Sane;
    var first, rest := WriteNamedItem(s, items[0]), items[1..];
    WriteItemsSplit(s, items);
    AtSplit(ts, i, first, WriteItems(s, rest));
    var j := i + |first|;
    NextFollows(ts, j, s, rest);
    NamedItemBack(ts, i, s, items[0]);
    OneMoreItem(ts, i, items[0], j);
    if rest == [] {
      WriteItemsSplit(s, rest);
      NoItemHere(ts, j);
      assert items == [items[0]];
    } else {
      ItemsBack(ts, j, s, rest);
      assert items == [items[0]] + rest;
    }
  }

  // Alternatives

  lemma {:induction false} DollarAlternative(ts: Tokens, i: nat, items: seq<NamedItem>, j: nat)
    requires i <= |ts| && Items(ts, i) == Ok(items, j) && j < |ts| && ts[j] == Dollar
    ensures AltAt(ts, i) ==
      var action := Action(ts, j + 1);
      if action.Ok? then Ok(Alt(items + [EndItem], Some(action.value)), action.end)
      else Ok(Alt(items + [EndItem], None), j + 1)
  {
    hide Items, Action;
  }

  lemma {:induction false} PlainAlternative(ts: Tokens, i: nat, items: seq<NamedItem>, j: nat)
    requires i <= |ts| && Items(ts, i) == Ok(items, j) && j < |ts| && ts[j].value != "$"
    ensures AltAt(ts, i) ==
      var action := Action(ts, j);
      if action.Ok? then Ok(Alt(items, Some(action.value)), action.end) else Ok(Alt(items, None), j)
  {
    hide Items, Action;
  }

  lemma {:induction false} NoActionHere(ts: Tokens, j: nat)
    requires j < |ts| && ts[j].value != "{"
    ensures Action(ts, j).Fail?
  {
    hide TargetAtoms;
  }

  /** An action is read back where it is written, and none is read where none is. */
  lemma {:induction false} EndOfAlt(ts: Tokens, j: nat, s: Style, action: Option<string>, tail: seq<Token>)
    requires action.Some? ==> Spelled(s, action.value)
    requires tail == WriteAction(s, action)
    requires At(ts, j, tail) && j + |tail| < |ts| && EndsAlt(ts[j + |tail|])
    ensures j < |ts| && EndsItems(ts[j]) && ts[j].value != "$"
    ensures Action(ts, j) == (if action.Some? then Ok(action.value, j + |tail|) else Fail)
    ensures action.None? ==> tail == []
  {
    hide Action, Spelled, Spelling;
    if action.Some? {
      AtFirst(ts, j, tail);
      ActionBack(ts, j, s, action.value);
    } else {
      NoActionHere(ts, j);
    }
  }

  lemma {:induction false} AltParts(s: Style, a: Alt)
    requires WritableAlt(s, a)
    ensures a.items == if EndsInDollar(a) then Body(a) + [EndItem] else Body(a)
    ensures Body(a) == a.items || (|a.items| > 0 && Body(a) == a.items[..|a.items| - 1])
    ensures Body(a) != [] && forall n :: n in Body(a) ==> WritableNamedItem(s, n)
    ensures a.action.Some? ==> Spelled(s, a.action.value)
  {
    hide WritableNamedItem, Spelled;
  }

  /** What an alternative is written as: its items, the end of the input where it stands, and its action. */
  lemma {:induction false} AltTokens(s: Style, a: Alt)
    ensures EndsInDollar(a) ==> WriteAlt(s, a) == WriteItems(s, Body(a)) + ([Dollar] + WriteAction(s, a.action))
    ensures !EndsInDollar(a) ==> WriteAlt(s, a) == WriteItems(s, Body(a)) + WriteAction(s, a.action)
  {
    hide Spelling, WriteItems;
  }

  lemma {:induction false} AtDollarAlt(ts: Tokens, i: nat, s: Style, items: seq<Token>, action: Option<string>, e: nat)
    requires (action.Some? ==> Spelled(s, action.value)) && At(ts, i, items + ([Dollar] + WriteAction(s, action)))
    requires e == i + |items| + 1 + |WriteAction(s, action)| < |ts| && EndsAlt(ts[e])
    ensures var j := i + |items|;
            && At(ts, i, items) && j < e && ts[j] == Dollar && (action.None? ==> j + 1 == e)
            && Action(ts, j + 1) == (if action.Some? then Ok(action.value, e) else Fail)
  {
    hide Action, At, Spelled, Spelling, EndsAlt;
    var tail, j := WriteAction(s, action), i + |items|;
    AtSplit(ts, i, items, [Dollar] + tail);
    AtHead(ts, j, Dollar, tail);
    EndOfAlt(ts, j + 1, s, action, tail);
  }

  lemma {:induction false} AltBack(ts: Tokens, i: nat, s: Style, a: Alt)
    requires Sane(ts) && WritableAlt(s, a) && At(ts, i, WriteAlt(s, a))
    requires i + |WriteAlt(s, a)| < |ts| && EndsAlt(ts[i + |WriteAlt(s, a)|])
    ensures AltAt(ts, i) == Ok(a, i + |WriteAlt(s, a)|)
    decreases a, 0
  {
    hide AltAt, Items, Action, Sane, At, WritableAlt, WritableNamedItem, Spelled, WriteItems, WriteAlt;
    hide EndsAlt, EndsItems, EndsInDollar, Body, WriteAction;
    var body, items, tail, e := Body(a), WriteItems(s, Body(a)), WriteAction(s, a.action), i + |WriteAlt(s, a)|;
    AltParts(s, a);
    AltTokens(s, a);
    var j := i + |items|;
    if EndsInDollar(a) {
      AtDollarAlt(ts, i, s, items, a.action, e);
      DollarEnds(ts, j);
      ItemsBack(ts, i, s, body);
      DollarAlternative(ts, i, body, j);
    } else {
      AtSplit(ts, i, items, tail);
      EndOfAlt(ts, j, s, a.action, tail);
      ItemsBack(ts, i, s, body);
      PlainAlternative(ts, i, body, j);
    }
  }

  lemma {:induction false} DollarEnds(ts: Tokens, j: nat)
    requires j < |ts| && ts[j] == Dollar
    ensures EndsItems(ts[j])
  {
  }

  lemma {:induction false} MoreAlternatives(ts: Tokens, i: nat, a: Alt, j: nat, r: Rhs, k: nat)
    requires i <= |ts| && AltAt(ts, i) == Ok(a, j)
    requires j < |ts| && ts[j] == Punct("|") && Alts(ts, j + 1) == Ok(r, k)
    ensures Alts(ts, i) == Ok(Rhs([a] + r.alts), k)
  {
    hide AltAt;
  }

  lemma {:induction false} LastAlternative(ts: Tokens, i: nat, a: Alt, j: nat)
    requires i <= |ts| && AltAt(ts, i) == Ok(a, j)
    requires j < |ts| && EndsAlts(ts[j])
    ensures Alts(ts, i) == Ok(Rhs([a]), j)
  {
    hide AltAt;
  }

  lemma {:induction false} WriteAltsSplit(s: Style, alts: seq<Alt>)
    requires alts != []
    ensures |alts| == 1 ==> WriteAlts(s, alts) == WriteAlt(s, alts[0])
    ensures |alts| > 1 ==> WriteAlts(s, alts) == WriteAlt(s, alts[0]) + ([Punct("|")] + WriteAlts(s, alts[1..]))
  {
  }

  lemma {:induction false} AltsBack(ts: Tokens, i: nat, s: Style, alts: seq<Alt>)
    requires Sane(ts) && alts != [] && forall a :: a in alts ==> WritableAlt(s, a)
    requires At(ts, i, WriteAlts(s, alts))
    requires i + |WriteAlts(s, alts)| < |ts| && EndsAlts(ts[i + |WriteAlts(s, alts)|])
    ensures Alts(ts, i) == Ok(Rhs(alts), i + |WriteAlts(s, alts)|)
    decreases alts, 0
  {
    hide Alts, AltAt, WritableAlt, WriteAlt, WriteAlts, Sane, At;
    WriteAltsSplit(s, alts);
    if |alts| == 1 {
      AltBack(ts, i, s, alts[0]);
      LastAlternative(ts, i, alts[0], i + |WriteAlts(s, alts)|);
      assert alts == [alts[0]];
    } else {
      var first, rest := WriteAlt(s, alts[0]), WriteAlts(s, alts[1..]);
      AtSplit(ts, i, first, [Punct("|")] + rest);
      AtHead(ts, i + |first|, Punct("|"), rest);
      AltBack(ts, i, s, alts[0]);
      AltsBack(ts, i + |first| + 1, s, alts[1..]);
      MoreAlternatives(ts, i, alts[0], i + |first|, Rhs(alts[1..]), i + |WriteAlts(s, alts)|);
      assert alts == [alts[0]] + alts[1..];
    }
  }

  // Heads of rules

  /** What stands after the name of a rule: a type, a mark for memoising or the colon. */
  predicate FollowsRuleName(t: Token) {
    t in {Punct("["), Punct("("), Punct(":")}
  }

  lemma {:induction false} NameAndType(ts: Tokens, i: nat, name: string, annotation: Option<string>, j: nat)
    requires i + 1 < |ts| && ts[i] == Token(Name, name)
    requires if annotation.Some? then Annotation(ts, i + 1) == Ok(annotation.value, j)
             else j == i + 1 && ts[j].value != "["
    ensures RuleNameAt(ts, i) == Ok(RuleName(name, annotation), j)
  {
    hide TargetAtoms;
  }

  lemma {:induction false} ColonNext(ts: Tokens, i: nat, name: RuleName, j: nat)
    requires i <= |ts| && RuleNameAt(ts, i) == Ok(name, j) && j < |ts| && ts[j] == Punct(":")
    ensures RuleHead(ts, i) == Ok(name, j + 1)
  {
    hide RuleNameAt;
  }

  lemma {:induction false} MemoNext(ts: Tokens, i: nat, name: RuleName, j: nat)
    requires i <= |ts| && RuleNameAt(ts, i) == Ok(name, j) && j + 3 < |ts| && ts[j] == Punct("(")
    requires ts[j + 1] == Token(Name, "memo") && ts[j + 2] == Punct(")") && ts[j + 3] == Punct(":")
    ensures RuleHead(ts, i) == Ok(name, j + 4)
  {
    hide RuleNameAt;
  }

  lemma {:induction false} MemoBack(ts: Tokens, i: nat, name: RuleName, j: nat, memo: seq<Token>)
    requires i <= |ts| && RuleNameAt(ts, i) == Ok(name, j) && At(ts, j, memo + [Punct(":")])
    requires memo == [] || memo == [Punct("("), Token(Name, "memo"), Punct(")")]
    ensures RuleHead(ts, i) == Ok(name, j + |memo| + 1)
  {
    hide RuleNameAt, RuleHead;
    AtSplit(ts, j, memo, [Punct(":")]);
    AtFirst(ts, j + |memo|, [Punct(":")]);
    if memo == [] {
      ColonNext(ts, i, name, j);
    } else {
      AtIndex(ts, j, memo, 0);
      AtIndex(ts, j, memo, 1);
      AtIndex(ts, j, memo, 2);
      MemoNext(ts, i, name, j);
    }
  }

  lemma {:induction false} HeadBack(ts: Tokens, i: nat, s: Style, r: Rule)
    requires (r.annotation.Some? ==> Spelled(s, r.annotation.value)) && At(ts, i, WriteHead(s, r))
    ensures RuleHead(ts, i) == Ok(RuleName(r.name, r.annotation), i + |WriteHead(s, r)|)
    ensures i + 1 < |ts| && ts[i] == Token(Name, r.name) && FollowsRuleName(ts[i + 1])
  {
    hide Annotation, RuleNameAt, RuleHead, Spelled, Spelling, At;
    var name := Token(Name, r.name);
    var brackets := if r.annotation.Some? then InBrackets(s, r.annotation.value) else [];
    var memo := if r in s.memo then [Punct("("), Token(Name, "memo"), Punct(")")] else [];
    AtHead(ts, i, name, brackets + (memo + [Punct(":")]));
    AtSplit(ts, i + 1, brackets, memo + [Punct(":")]);
    var j := i + 1 + |brackets|;
    AtFirst(ts, j, memo + [Punct(":")]);
    if r.annotation.Some? {
      AnnotationBack(ts, i + 1, s, r.annotation.value);
      AtFirst(ts, i + 1, brackets);
    }
    NameAndType(ts, i, r.name, r.annotation, j);
    MemoBack(ts, i, RuleName(r.name, r.annotation), j, memo);
  }

  // Blocks

  lemma {:induction false} BlockLine(ts: Tokens, i: nat, r: Rhs, j: nat)
    requires i < |ts| && ts[i] == Punct("|") && Alts(ts, i + 1) == Ok(r, j)
    requires j + 1 < |ts| && ts[j] == LineEnd
    ensures ts[j + 1].value != "|" ==> MoreAlts(ts, i) == Ok(r, j + 1)
    ensures var more := MoreAlts(ts, j + 1);
            more.Ok? ==> MoreAlts(ts, i) == Ok(Rhs(r.alts + more.value.alts), more.end)
  {
    hide Alts;
  }

  lemma {:induction false} LinesSplit(s: Style, alts: seq<Alt>, lines: seq<nat>)
    requires lines != [] && Fits(lines, |alts|)
    ensures 0 < lines[0] <= |alts| && Fits(lines[1..], |alts[lines[0]..]|)
    ensures WriteLines(s, alts, lines) ==
            [Punct("|")] + (WriteAlts(s, alts[..lines[0]])
            + ([LineEnd] + WriteLines(s, alts[lines[0]..], lines[1..])))
    ensures |lines| == 1 ==> lines[0] == |alts| && WriteLines(s, alts[lines[0]..], lines[1..]) == []
  {
  }

  lemma {:induction false} LinesBack(ts: Tokens, i: nat, s: Style, alts: seq<Alt>, lines: seq<nat>)
    requires Sane(ts) && (forall a :: a in alts ==> WritableAlt(s, a)) && lines != [] && Fits(lines, |alts|)
    requires At(ts, i, WriteLines(s, alts, lines))
    requires i + |WriteLines(s, alts, lines)| < |ts| && ts[i + |WriteLines(s, alts, lines)|].value != "|"
    ensures MoreAlts(ts, i) == Ok(Rhs(alts), i + |WriteLines(s, alts, lines)|)
    decreases |lines|
  {
    hide Alts, MoreAlts, WritableAlt, WriteAlts, WriteLines, Sane, At;
    var n := lines[0];
    LinesSplit(s, alts, lines);
    var line, rest := WriteAlts(s, alts[..n]), WriteLines(s, alts[n..], lines[1..]);
    AtHead(ts, i, Punct("|"), line + ([LineEnd] + rest));
    AtSplit(ts, i + 1, line, [LineEnd] + rest);
    var j := i + 1 + |line|;
    AtHead(ts, j, LineEnd, rest);
    AltsBack(ts, i + 1, s, alts[..n]);
    BlockLine(ts, i, Rhs(alts[..n]), j);
    assert alts == alts[..n] + alts[n..];
    if |lines| == 1 {
      assert alts[..n] == alts;
    } else {
      LinesBack(ts, j + 1, s, alts[n..], lines[1..]);
    }
  }

  lemma {:induction false} BlockOf(ts: Tokens, i: nat, r: Rhs, j: nat)
    requires i < |ts| && ts[i].kind == Indent && MoreAlts(ts, i + 1) == Ok(r, j) && j < |ts| && ts[j].kind == Dedent
    ensures Block(ts, i) == Ok(r, j + 1)
  {
    hide MoreAlts;
  }

  lemma {:induction false} BlockBack(ts: Tokens, i: nat, s: Style, alts: seq<Alt>, lines: seq<nat>)
    requires Sane(ts) && (forall a :: a in alts ==> WritableAlt(s, a)) && lines != [] && Fits(lines, |alts|)
    requires At(ts, i, WriteBlock(s, alts, lines))
    ensures Block(ts, i) == Ok(Rhs(alts), i + |WriteBlock(s, alts, lines)|)
  {
    hide MoreAlts, Block, WritableAlt, WriteLines, Sane, At, Fits;
    var inner := WriteLines(s, alts, lines);
    AtInside(ts, i, Token(Indent, "    "), inner, Token(Dedent, ""));
    LinesBack(ts, i + 1, s, alts, lines);
    BlockOf(ts, i, Rhs(alts), i + 1 + |inner|);
  }

  // Rules

  // A name that `expect` takes for the end marker.
  const EndWord := Token(Name, "EndMarker")

  /** What stands after a rule: the end marker or its name, or the head of the next rule. */
  predicate EndsRule(ts: Tokens, j: nat) {
    || (j == |ts| - 1 && ts[j] == Token(EndMarker, ""))
    || (j < |ts| && ts[j] == EndWord)
    || (j + 1 < |ts| && ts[j].kind == Name && Identifier(ts[j].value) && FollowsRuleName(ts[j + 1]))
  }

  lemma {:induction false} AfterARule(ts: Tokens, j: nat)
    requires EndsRule(ts, j)
    ensures Block(ts, j).Fail? && ts[j].value != "|"
    ensures Expect(ts, j, "Dedent").Ok? <==> ts[j] == Token(Name, "Dedent")
  {
    hide Alts;
    if ts[j].kind == Name && Identifier(ts[j].value) {
      assert ts[j].value[0] in ts[j].value;
    }
  }

  lemma {:induction false} LongRuleParses(ts: Tokens, i: nat, name: RuleName, h: nat, r: Rhs, k: nat, more: Rhs, e: nat)
    requires i <= |ts| && RuleHead(ts, i) == Ok(name, h) && h <= |ts| && Alts(ts, h) == Ok(r, k)
    requires k < |ts| && ts[k] == LineEnd && Block(ts, k + 1) == Ok(more, e)
    ensures RuleAt(ts, i) == Ok(Rule(name.name, name.annotation, Rhs(r.alts + more.alts)), e)
  {
    hide Alts, Block, RuleHead;
  }

  lemma {:induction false} BlockRuleParses(ts: Tokens, i: nat, name: RuleName, h: nat, r: Rhs, e: nat)
    requires i <= |ts| && RuleHead(ts, i) == Ok(name, h) && h < |ts| && ts[h] == LineEnd
    requires Alts(ts, h).Fail? && Block(ts, h + 1) == Ok(r, e)
    ensures RuleAt(ts, i) == Ok(Rule(name.name, name.annotation, r), e)
  {
    hide Alts, Block, RuleHead;
  }

  lemma {:induction false} LineRuleParses(ts: Tokens, i: nat, name: RuleName, h: nat, r: Rhs, k: nat)
    requires i <= |ts| && RuleHead(ts, i) == Ok(name, h) && h <= |ts| && Alts(ts, h) == Ok(r, k)
    requires k + 1 < |ts| && ts[k] == LineEnd && Block(ts, k + 1).Fail?
    ensures BlockRule(ts, i).Fail? ==> RuleAt(ts, i) == Ok(Rule(name.name, name.annotation, r), k + 1)
    ensures BlockRule(ts, i).Ok? ==> RuleAt(ts, i) == BlockRule(ts, i)
  {
    hide Alts, MoreAlts, RuleHead, Block;
  }

  // Rules on one line that read like a block

  predicate BlockWords(ts: Tokens, h: nat)
    requires h <= |ts|
  {
    h + 2 < |ts| && Expect(ts, h, "NewLine").Ok? && Expect(ts, h + 1, "Indent").Ok? && ts[h + 2].value == "|"
  }

  /** What makes more of a name that starts an item. */
  predicate GoesOn(t: Token) {
    t.kind == Op && (Extends(t) || t.value in {"=", "["})
  }

  lemma {:induction false} NamedFirst(s: Style, n: NamedItem)
    requires WritableNamedItem(s, n) && WriteNamedItem(s, n) != [] && WriteNamedItem(s, n)[0].kind == Name
    ensures var written := WriteNamedItem(s, n);
            (|written| == 1 && n == Leaf(written[0].value)) || (|written| > 1 && GoesOn(written[1]))
  {
    hide WriteItem, Writable, Spelling, Spelled;
    if n.name.None? {
      NothingWritten(s, n);
      NameFirst(s, n.item);
    }
  }

  /** A token that starts an item is one of the special words only as a name. */
  lemma {:induction false} WordIsName(ts: Tokens, i: nat, word: string)
    requires i < |ts| && Expect(ts, i, word).Ok? && (word == "NewLine" || word == "Indent") && StartsItem(ts[i])
    ensures ts[i] == Token(Name, word)
  {
    assert "String"[0] == 'S' && "NewLine"[0] == 'N' && "Indent"[0] == 'I';
    assert word[|word| - 1] != '\'' && word[|word| - 1] != '\"';
  }

  lemma {:induction false} WordItem(ts: Tokens, k: nat, s: Style, items: seq<NamedItem>, word: string)
    requires items != [] && WritableNamedItem(s, items[0]) && At(ts, k, WriteItems(s, items))
    requires k < |ts| && Expect(ts, k, word).Ok? && (word == "NewLine" || word == "Indent")
    requires k + 1 < |ts| && !GoesOn(ts[k + 1])
    ensures items[0] == Leaf(word) && At(ts, k + 1, WriteItems(s, items[1..]))
    ensures |WriteItems(s, items)| == 1 + |WriteItems(s, items[1..])|
  {
    hide WritableNamedItem, WriteNamedItem, WriteItems, GoesOn, StartsItem;
    var written := WriteNamedItem(s, items[0]);
    WriteItemsSplit(s, items);
    AtSplit(ts, k, written, WriteItems(s, items[1..]));
    NamedItemStarts(s, items[0]);
    AtFirst(ts, k, written);
    WordIsName(ts, k, word);
    if |written| > 1 {
      AtIndex(ts, k, written, 1);
    }
    NamedFirst(s, items[0]);
  }

  lemma {:induction false} AfterBody(ts: Tokens, h: nat, s: Style, alts: seq<Alt>)
    requires alts != [] && At(ts, h, WriteAlts(s, alts) + [LineEnd])
    ensures var k := h + |WriteItems(s, Body(alts[0]))|;
            && At(ts, h, WriteItems(s, Body(alts[0]))) && k < |ts| && EndsItems(ts[k])
            && (ts[k] == Punct("|") ==> |alts| > 1 && !EndsInDollar(alts[0]) && alts[0].action.None?)
  {
    hide WriteItems, Spelling, At;
    var items, end := WriteItems(s, Body(alts[0])), WriteTail(s, alts[0]);
    var more := if |alts| == 1 then [LineEnd] else [Punct("|")] + WriteAlts(s, alts[1..]) + [LineEnd];
    assert WriteAlts(s, alts) + [LineEnd] == items + (end + more);
    AtSplit(ts, h, items, end + more);
    AtFirst(ts, h + |items|, end + more);
  }

  lemma {:induction false} TwoWords(ts: Tokens, h: nat, s: Style, items: seq<NamedItem>)
    requires items != [] && (forall n :: n in items ==> WritableNamedItem(s, n)) && At(ts, h, WriteItems(s, items))
    requires h + |WriteItems(s, items)| < |ts| && EndsItems(ts[h + |WriteItems(s, items)|]) && BlockWords(ts, h)
    ensures items == [Leaf("NewLine"), Leaf("Indent")] && |WriteItems(s, items)| == 2
  {
    hide WritableNamedItem, WriteItems, At, StartsItem;
    WordItem(ts, h, s, items, "NewLine");
    NextStarts(ts, h + 1, s, items[1..]);
    WordItem(ts, h + 1, s, items[1..], "Indent");
    NextStarts(ts, h + 2, s, items[1..][1..]);
    if items[1..][1..] != [] {
      StartsNothingElse(ts[h + 2]);
    }
    WriteItemsSplit(s, items[1..][1..]);
    assert items == [items[0], items[1]];
  }

  /** Only a rule that looks like a block has the words of a block where its alternatives start. */
  lemma {:induction false} WordsOfABlock(ts: Tokens, h: nat, s: Style, alts: seq<Alt>)
    requires alts != [] && WritableAlt(s, alts[0])
    requires At(ts, h, WriteAlts(s, alts) + [LineEnd]) && BlockWords(ts, h)
    ensures |alts| > 1 && alts[0] == Alt([Leaf("NewLine"), Leaf("Indent")], None)
  {
    hide WritableAlt, WritableNamedItem, WriteItems, WriteAlts, At, Spelled, Expect, EndsInDollar, Body, WriteAlt;
    AltParts(s, alts[0]);
    AfterBody(ts, h, s, alts);
    TwoWords(ts, h, s, Body(alts[0]));
  }

  lemma {:induction false} NoWordsNoBlock(ts: Tokens, i: nat, h: nat, name: RuleName)
    requires i <= |ts| && RuleHead(ts, i) == Ok(name, h) && h <= |ts| && !BlockWords(ts, h)
    ensures BlockRule(ts, i).Fail?
  {
    hide RuleHead, Alts;
  }

  lemma {:induction false} WordsMakeABlock(ts: Tokens, i: nat, h: nat, name: RuleName, r: Rhs, j: nat)
    requires i <= |ts| && RuleHead(ts, i) == Ok(name, h) && h <= |ts| && BlockWords(ts, h)
    requires MoreAlts(ts, h + 2) == Ok(r, j) && j < |ts|
    ensures BlockRule(ts, i) ==
      if Expect(ts, j, "Dedent").Ok? then Ok(Rule(name.name, name.annotation, r), j + 1) else Fail
  {
    hide RuleHead, MoreAlts;
  }

  /** The tokens of a rule that looks like a block, where its alternatives start. */
  lemma {:induction false} LookalikeTokens(ts: Tokens, h: nat, s: Style, alts: seq<Alt>)
    requires |alts| > 1 && alts[0] == Alt([Leaf("NewLine"), Leaf("Indent")], None)
    requires At(ts, h, WriteAlts(s, alts))
    ensures h + 3 <= |ts| && ts[h] == Token(Name, "NewLine") && ts[h + 1] == Token(Name, "Indent")
    ensures ts[h + 2] == Punct("|") && At(ts, h + 3, WriteAlts(s, alts[1..]))
    ensures |WriteAlts(s, alts)| == 3 + |WriteAlts(s, alts[1..])|
  {
    hide At, WriteAlts, WriteAlt;
    var a, b, rest := Token(Name, "NewLine"), Token(Name, "Indent"), WriteAlts(s, alts[1..]);
    LookalikeAlt(s);
    WriteAltsSplit(s, alts);
    AtSplit(ts, h, [a, b], [Punct("|")] + rest);
    AtIndex(ts, h, [a, b], 0);
    AtIndex(ts, h, [a, b], 1);
    AtHead(ts, h + 2, Punct("|"), rest);
  }

  lemma {:induction false} LookalikeAlt(s: Style)
    ensures WriteAlt(s, Alt([Leaf("NewLine"), Leaf("Indent")], None))
            == [Token(Name, "NewLine"), Token(Name, "Indent")]
  {
    var items := [Leaf("NewLine"), Leaf("Indent")];
    assert Leaf("Indent") != EndItem by {
      assert "Indent"[0] != "EndMarker"[0];
    }
    assert items[1..] == [Leaf("Indent")] && items[1..][1..] == [];
    assert WriteItems(s, items[1..]) == [Token(Name, "Indent")];
    assert WriteItems(s, items) == [Token(Name, "NewLine")] + [Token(Name, "Indent")];
  }

  /** Whether the rule would be taken, with the name of the next, for a block. */
  predicate Swallows(ts: Tokens, s: Style, r: Rule, j: nat)
    requires j < |ts|
  {
    LooksLikeABlock(s, r) && ts[j] == Token(Name, "Dedent")
  }

  lemma {:induction false} LookalikeBack(ts: Tokens, i: nat, h: nat, s: Style, name: RuleName, alts: seq<Alt>)
    requires Sane(ts) && (forall a :: a in alts ==> WritableAlt(s, a))
    requires i <= |ts| && RuleHead(ts, i) == Ok(name, h)
    requires |alts| > 1 && alts[0] == Alt([Leaf("NewLine"), Leaf("Indent")], None)
    requires At(ts, h, WriteAlts(s, alts))
    requires var j := h + |WriteAlts(s, alts)|; j + 1 < |ts| && ts[j] == LineEnd && EndsRule(ts, j + 1)
    ensures var j := h + |WriteAlts(s, alts)| + 1;
            BlockRule(ts, i) ==
            if ts[j] == Token(Name, "Dedent") then Ok(Rule(name.name, name.annotation, Rhs(alts[1..])), j + 1) else Fail
  {
    hide RuleHead, Alts, MoreAlts, BlockRule, WritableAlt, WriteAlts, Sane, At, EndsRule;
    LookalikeTokens(ts, h, s, alts);
    AltsBack(ts, h + 3, s, alts[1..]);
    var j := h + |WriteAlts(s, alts)|;
    AfterARule(ts, j + 1);
    BlockLine(ts, h + 2, Rhs(alts[1..]), j);
    WordsMakeABlock(ts, i, h, name, Rhs(alts[1..]), j + 1);
  }

  lemma {:induction false} AsBlockRule(ts: Tokens, i: nat, h: nat, s: Style, name: RuleName, alts: seq<Alt>)
    requires Sane(ts) && (forall a :: a in alts ==> WritableAlt(s, a)) && alts != []
    requires i <= |ts| && RuleHead(ts, i) == Ok(name, h) && At(ts, h, WriteAlts(s, alts) + [LineEnd])
    requires var j := h + |WriteAlts(s, alts)|; j + 1 < |ts| && ts[j] == LineEnd && EndsRule(ts, j + 1)
    ensures var j := h + |WriteAlts(s, alts)| + 1;
            BlockRule(ts, i) ==
            if |alts| > 1 && alts[0] == Alt([Leaf("NewLine"), Leaf("Indent")], None) && ts[j] == Token(Name, "Dedent")
            then Ok(Rule(name.name, name.annotation, Rhs(alts[1..])), j + 1) else Fail
  {
    hide RuleHead, BlockRule, WritableAlt, WriteAlts, EndsRule, Expect, Sane, At;
    AtSplit(ts, h, WriteAlts(s, alts), [LineEnd]);
    if |alts| > 1 && alts[0] == Alt([Leaf("NewLine"), Leaf("Indent")], None) {
      LookalikeBack(ts, i, h, s, name, alts);
    } else {
      if BlockWords(ts, h) {
        WordsOfABlock(ts, h, s, alts);
        assert false;
      }
      NoWordsNoBlock(ts, i, h, name);
    }
  }

  // Rules that are written are read back.

  /** On one line. */
  lemma {:induction false} LineRuleBack(ts: Tokens, i: nat, s: Style, r: Rule)
    requires Sane(ts) && WritableRule(s, r) && LayoutOf(s, r).lines == [] && At(ts, i, WriteRule(s, r))
    requires i + |WriteRule(s, r)| < |ts| && EndsRule(ts, i + |WriteRule(s, r)|)
    ensures var j := i + |WriteRule(s, r)|;
            RuleAt(ts, i) ==
            if Swallows(ts, s, r, j) then Ok(Rule(r.name, r.annotation, Rhs(r.rhs.alts[1..])), j + 1) else Ok(r, j)
  {
    hide RuleHead, Alts, RuleAt, BlockRule, WritableAlt, WriteAlts, EndsRule, Block, Sane, At, WriteHead, WriteRule;
    hide WritableRule, Spelled;
    var alts, h := r.rhs.alts, i + |WriteHead(s, r)|;
    RulePartsWritten(s, r);
    assert alts[..|alts|] == alts && [LineEnd] + [] == [LineEnd];
    AtSplit(ts, i, WriteHead(s, r), WriteAlts(s, alts) + [LineEnd]);
    AtSplit(ts, h, WriteAlts(s, alts), [LineEnd]);
    var k := h + |WriteAlts(s, alts)|;
    AtFirst(ts, k, [LineEnd]);
    HeadBack(ts, i, s, r);
    AltsBack(ts, h, s, alts);
    AfterARule(ts, k + 1);
    LineRuleParses(ts, i, RuleName(r.name, r.annotation), h, r.rhs, k);
    AsBlockRule(ts, i, h, s, RuleName(r.name, r.annotation), alts);
  }

  /** The parts of a rule where they are written. */
  lemma {:induction false} AtRule(ts: Tokens, i: nat, s: Style, r: Rule)
    requires WritableRule(s, r) && At(ts, i, WriteRule(s, r))
    ensures var l := LayoutOf(s, r);
            var h := i + |WriteHead(s, r)|;
            var k := h + |WriteAlts(s, r.rhs.alts[..l.head])|;
            && At(ts, i, WriteHead(s, r)) && At(ts, h, WriteAlts(s, r.rhs.alts[..l.head]))
            && k < |ts| && ts[k] == LineEnd
            && (l.lines != [] ==>
                  && At(ts, k + 1, WriteBlock(s, r.rhs.alts[l.head..], l.lines))
                  && k + 1 + |WriteBlock(s, r.rhs.alts[l.head..], l.lines)| == i + |WriteRule(s, r)|)
  {
    hide WriteAlts, At, WriteHead, WriteRule, WritableRule, WriteBlock, Spelled, WritableAlt, Fits;
    var alts, l := r.rhs.alts, LayoutOf(s, r);
    RulePartsWritten(s, r);
    var first := WriteAlts(s, alts[..l.head]);
    var more := if l.lines == [] then [] else WriteBlock(s, alts[l.head..], l.lines);
    AtSplit(ts, i, WriteHead(s, r), first + ([LineEnd] + more));
    AtSplit(ts, i + |WriteHead(s, r)|, first, [LineEnd] + more);
    AtHead(ts, i + |WriteHead(s, r)| + |first|, LineEnd, more);
  }

  /** With a block, and no alternative on the line of the head. */
  lemma {:induction false} BlockRuleBack(ts: Tokens, i: nat, s: Style, r: Rule)
    requires Sane(ts) && WritableRule(s, r) && LayoutOf(s, r).lines != [] && LayoutOf(s, r).head == 0
    requires At(ts, i, WriteRule(s, r))
    ensures RuleAt(ts, i) == Ok(r, i + |WriteRule(s, r)|)
  {
    hide RuleHead, Alts, RuleAt, WritableAlt, WriteAlts, Block, Sane, At, WriteHead, WriteRule, WritableRule, Fits;
    hide Spelled, WriteBlock;
    var alts, h := r.rhs.alts, i + |WriteHead(s, r)|;
    RulePartsWritten(s, r);
    AtRule(ts, i, s, r);
    NoAltsWritten(s);
    assert alts[..0] == [] && alts[0..] == alts;
    HeadBack(ts, i, s, r);
    NoItemHere(ts, h);
    BlockBack(ts, h + 1, s, alts, LayoutOf(s, r).lines);
    BlockRuleParses(ts, i, RuleName(r.name, r.annotation), h, r.rhs, i + |WriteRule(s, r)|);
  }

  /** With a block, and alternatives on the line of the head. */
  lemma {:induction false} LongRuleBack(ts: Tokens, i: nat, s: Style, r: Rule)
    requires Sane(ts) && WritableRule(s, r) && LayoutOf(s, r).lines != [] && LayoutOf(s, r).head > 0
    requires At(ts, i, WriteRule(s, r))
    ensures RuleAt(ts, i) == Ok(r, i + |WriteRule(s, r)|)
  {
    hide RuleHead, Alts, RuleAt, WritableAlt, WriteAlts, Block, Sane, At, WriteHead, WriteRule, WritableRule, Fits;
    hide Spelled, WriteBlock;
    var alts, n, h := r.rhs.alts, LayoutOf(s, r).head, i + |WriteHead(s, r)|;
    RulePartsWritten(s, r);
    AtRule(ts, i, s, r);
    HeadBack(ts, i, s, r);
    var k, e := h + |WriteAlts(s, alts[..n])|, i + |WriteRule(s, r)|;
    AltsBack(ts, h, s, alts[..n]);
    BlockBack(ts, k + 1, s, alts[n..], LayoutOf(s, r).lines);
    assert alts == alts[..n] + alts[n..];
    LongRuleParses(ts, i, RuleName(r.name, r.annotation), h, Rhs(alts[..n]), k, Rhs(alts[n..]), e);
  }

  lemma {:induction false} NoAltsWritten(s: Style)
    ensures WriteAlts(s, []) == []
  {
  }

  /** A rule is read back in its layout; only one that looks like a block is not, where its next is named `Dedent`. */
  lemma {:induction false} RuleBack(ts: Tokens, i: nat, s: Style, r: Rule, j: nat)
    requires Sane(ts) && WritableRule(s, r) && At(ts, i, WriteRule(s, r))
    requires j == i + |WriteRule(s, r)| < |ts| && EndsRule(ts, j)
    ensures RuleAt(ts, i) ==
      if Swallows(ts, s, r, j) then Ok(Rule(r.name, r.annotation, Rhs(r.rhs.alts[1..])), j + 1) else Ok(r, j)
  {
    hide RuleAt, WriteRule, WritableRule, Sane, EndsRule, At;
    if LayoutOf(s, r).lines == [] {
      LineRuleBack(ts, i, s, r);
    } else if LayoutOf(s, r).head == 0 {
      BlockRuleBack(ts, i, s, r);
    } else {
      LongRuleBack(ts, i, s, r);
    }
  }

  lemma {:induction false} NoRuleHere(ts: Tokens, i: nat)
    requires i < |ts| && ts[i].kind != Name
    ensures Rules(ts, i).Fail?
  {
    hide Alts, MoreAlts, Annotation, MemoFlag;
    assert RuleHead(ts, i).Fail?;
  }

  lemma {:induction false} RulesStep(ts: Tokens, i: nat, r: Rule, j: nat)
    requires i <= |ts| && RuleAt(ts, i) == Ok(r, j)
    ensures Rules(ts, i) ==
      if Rules(ts, j).Ok? then Ok([r] + Rules(ts, j).value, Rules(ts, j).end) else Ok([r], j)
  {
    hide RuleAt;
  }

  /** Rules are written at the index, and then comes the end marker that closes the list, or its name. */
  predicate RulesWritten(ts: Tokens, i: nat, s: Style, rules: seq<Rule>, last: Token) {
    && At(ts, i, WriteRules(s, rules) + [last])
    && (last == EndWord || (last == Token(EndMarker, "") && i + |WriteRules(s, rules)| == |ts| - 1))
  }

  lemma {:induction false} WriteRulesSplit(s: Style, rules: seq<Rule>)
    ensures rules == [] ==> WriteRules(s, rules) == []
    ensures rules != [] ==> WriteRules(s, rules) == WriteRule(s, rules[0]) + WriteRules(s, rules[1..])
  {
  }

  lemma {:induction false} HeadFirst(s: Style, r: Rule)
    requires WritableRule(s, r)
    ensures exists rest :: WriteRule(s, r) == WriteHead(s, r) + rest
  {
    RulePartsWritten(s, r);
  }

  lemma {:induction false} NextRule(ts: Tokens, j: nat, s: Style, rest: seq<Rule>, last: Token)
    requires RulesWritten(ts, j, s, rest, last) && forall r :: r in rest ==> WritableRule(s, r)
    ensures EndsRule(ts, j)
    ensures rest == [] ==> ts[j] == last
    ensures rest != [] ==> j + 1 < |ts| && ts[j] == Token(Name, rest[0].name) && FollowsRuleName(ts[j + 1])
  {
    hide WriteRule, WriteRules, At, WriteHead, Spelled;
    WriteRulesSplit(s, rest);
    AtSplit(ts, j, WriteRules(s, rest), [last]);
    if rest == [] {
      AtFirst(ts, j, [last]);
    } else {
      var r := rest[0];
      assert WritableRule(s, r);
      AtSplit(ts, j, WriteRule(s, r), WriteRules(s, rest[1..]));
      HeadFirst(s, r);
      var tail :| WriteRule(s, r) == WriteHead(s, r) + tail;
      AtSplit(ts, j, WriteHead(s, r), tail);
      HeadBack(ts, j, s, r);
    }
  }

  lemma {:induction false} ClashSplit(s: Style, rules: seq<Rule>)
    requires |rules| > 1
    ensures RulesClash(s, rules) <==>
            (LooksLikeABlock(s, rules[0]) && rules[1].name == "Dedent") || RulesClash(s, rules[1..])
  {
    hide LooksLikeABlock;
    var rest := rules[1..];
    assert forall k :: 0 <= k < |rest| ==> rest[k] == rules[k + 1];
    if LooksLikeABlock(s, rules[0]) && rules[1].name == "Dedent" {
      assert rules[0 + 1].name == "Dedent";
    }
    if RulesClash(s, rest) {
      var k :| 0 <= k < |rest| - 1 && LooksLikeABlock(s, rest[k]) && rest[k + 1].name == "Dedent";
      assert LooksLikeABlock(s, rules[k + 1]) && rules[k + 1 + 1].name == "Dedent";
    }
    if RulesClash(s, rules) {
      var k :| 0 <= k < |rules| - 1 && LooksLikeABlock(s, rules[k]) && rules[k + 1].name == "Dedent";
      if k > 0 {
        assert LooksLikeABlock(s, rest[k - 1]) && rest[k - 1 + 1].name == "Dedent";
      }
    }
  }

  /** The rules that are read where others have been read back before them. */
  ghost function RulesAfter(ts: Tokens, rules: seq<Rule>, e: nat): Parsed<seq<Rule>>
    requires e <= |ts|
  {
    var more := Rules(ts, e);
    if more.Ok? then Ok(rules + more.value, more.end) else Ok(rules, e)
  }

  lemma {:induction false} RulesAfterOne(ts: Tokens, i: nat, r: Rule, rest: seq<Rule>, j: nat, e: nat)
    requires i <= |ts| && RuleAt(ts, i) == Ok(r, j) && e <= |ts|
    requires rest == [] ==> j == e
    requires rest != [] ==> Rules(ts, j) == RulesAfter(ts, rest, e)
    ensures Rules(ts, i) == RulesAfter(ts, [r] + rest, e)
  {
    hide Rules, RuleAt;
    RulesStep(ts, i, r, j);
    var more := Rules(ts, e);
    if rest == [] {
      assert [r] + rest == [r];
    } else if more.Ok? {
      assert [r] + (rest + more.value) == [r] + rest + more.value;
    }
  }

  /** The rules are read back, up to the first rule taken for a block; from there nothing is read on. */
  lemma {:induction false} RulesBack(ts: Tokens, i: nat, s: Style, rules: seq<Rule>, last: Token)
    requires Sane(ts) && rules != [] && forall r :: r in rules ==> WritableRule(s, r)
    requires RulesWritten(ts, i, s, rules, last)
    ensures !RulesClash(s, rules) ==> Rules(ts, i) == RulesAfter(ts, rules, i + |WriteRules(s, rules)|)
    ensures RulesClash(s, rules) ==>
              Rules(ts, i).Ok? && Rules(ts, i).end < |ts| && FollowsRuleName(ts[Rules(ts, i).end])
    decreases |rules|
  {
    hide RuleAt, Rules, WritableRule, WriteRule, WriteRules, Sane, LooksLikeABlock, EndsRule, RulesClash, At;
    hide RulesAfter;
    var r, rest := rules[0], rules[1..];
    var first, more := WriteRule(s, r), WriteRules(s, rest) + [last];
    WriteRulesSplit(s, rules);
    WriteRulesSplit(s, rest);
    assert WriteRules(s, rules) + [last] == first + more;
    AtSplit(ts, i, first, more);
    var j, e := i + |first|, i + |WriteRules(s, rules)|;
    NextRule(ts, j, s, rest, last);
    assert WritableRule(s, r);
    RuleBack(ts, i, s, r, j);
    assert rules == [r] + rest;
    if rest == [] {
      NoClashAlone(s, rules);
      RulesAfterOne(ts, i, r, rest, j, e);
    } else {
      ClashSplit(s, rules);
      if Swallows(ts, s, r, j) {
        NoRuleHere(ts, j + 1);
        RulesStep(ts, i, RuleAt(ts, i).value, j + 1);
      } else {
        RulesBack(ts, j, s, rest, last);
        if RulesClash(s, rest) {
          RulesStep(ts, i, r, j);
        } else {
          RulesAfterOne(ts, i, r, rest, j, e);
        }
      }
    }
  }

  lemma {:induction false} NoClashAlone(s: Style, rules: seq<Rule>)
    requires |rules| <= 1
    ensures !RulesClash(s, rules)
  {
  }

  // Metas

  lemma {:induction false} MetaFrom(ts: Tokens, i: nat, m: Meta)
    requires i + 2 < |ts| && ts[i] == Punct("@") && ts[i + 1] == Token(Name, m.name)
    requires m.value.NoValue? ==> ts[i + 2] == LineEnd
    requires m.value.NameValue? ==> i + 3 < |ts| && ts[i + 2] == Token(Name, m.value.text) && ts[i + 3] == LineEnd
    requires m.value.LiteralValue? ==>
               && i + 3 < |ts| && ts[i + 2] == Token(String, m.value.literal) && Quoted(m.value.literal)
               && ts[i + 3] == LineEnd
    ensures MetaAt(ts, i) ==
      if m.value == NameValue("NewLine") then Ok(Meta(m.name, NoValue), i + 3)
      else Ok(m, i + if m.value.NoValue? then 3 else 4)
  {
    assert "NewLine"[|"NewLine"| - 1] == 'e';
  }

  /** A meta is read back; one with the name `NewLine` for its value is read without it, up to that name. */
  lemma {:induction false} MetaBack(ts: Tokens, i: nat, m: Meta)
    requires WritableMeta(m) && At(ts, i, WriteMeta(m))
    ensures MetaAt(ts, i) ==
      if m.value == NameValue("NewLine") then Ok(Meta(m.name, NoValue), i + 3) else Ok(m, i + |WriteMeta(m)|)
    ensures m.value == NameValue("NewLine") ==> i + 3 < |ts| && ts[i + 3] == LineEnd
  {
    hide MetaAt, At, Quoted;
    var written := WriteMeta(m);
    AtIndex(ts, i, written, 0);
    AtIndex(ts, i, written, 1);
    AtIndex(ts, i, written, 2);
    if !m.value.NoValue? {
      AtIndex(ts, i, written, 3);
    }
    MetaFrom(ts, i, m);
  }

  lemma {:induction false} NoMetaHere(ts: Tokens, i: nat)
    requires i < |ts| && ts[i].value != "@"
    ensures Metas(ts, i).Fail?
  {
  }

  lemma {:induction false} MetasStep(ts: Tokens, i: nat, m: Meta, j: nat)
    requires i <= |ts| && MetaAt(ts, i) == Ok(m, j)
    ensures Metas(ts, i) ==
      if Metas(ts, j).Ok? then Ok([m] + Metas(ts, j).value, Metas(ts, j).end) else Ok([m], j)
  {
    hide MetaAt;
  }

  lemma {:induction false} MetasBack(ts: Tokens, i: nat, metas: seq<Meta>)
    requires metas != [] && (forall m :: m in metas ==> WritableMeta(m)) && At(ts, i, WriteMetas(metas))
    requires i + |WriteMetas(metas)| < |ts| && ts[i + |WriteMetas(metas)|].value != "@"
    ensures !MetasClash(metas) ==> Metas(ts, i) == Ok(metas, i + |WriteMetas(metas)|)
    ensures MetasClash(metas) ==> Metas(ts, i).Ok? && Metas(ts, i).end < |ts| && ts[Metas(ts, i).end] == LineEnd
    decreases |metas|
  {
    hide Metas, MetaAt, WritableMeta, WriteMeta, At;
    var m, rest := metas[0], metas[1..];
    AtSplit(ts, i, WriteMeta(m), WriteMetas(rest));
    var j := i + |WriteMeta(m)|;
    MetaBack(ts, i, m);
    assert metas == [m] + rest;
    if m.value == NameValue("NewLine") {
      NoMetaHere(ts, i + 3);
      MetasStep(ts, i, Meta(m.name, NoValue), i + 3);
    } else {
      MetasStep(ts, i, m, j);
      if rest == [] {
        NoMetasWritten();
        NoMetaHere(ts, j);
        assert metas == [m];
      } else {
        MetasBack(ts, j, rest);
      }
    }
  }

  // Grammars

  lemma {:induction false} RuleDictBack(m: Dict<Rule>, n: nat)
    requires n <= |m|
    requires forall i :: 0 <= i < |m| ==> m[i].0 == m[i].1.name
    requires forall i, j :: 0 <= i < j < |m| ==> m[i].0 != m[j].0
    ensures RuleDict(Values(m)[..n]) == m[..n]
  {
    var rules := Values(m)[..n];
    if n > 0 {
      RuleDictBack(m, n - 1);
      assert rules[..n - 1] == Values(m)[..n - 1];
      PutNew(m[..n - 1], rules[n - 1].name, rules[n - 1]);
      assert m[..n] == m[..n - 1] + [m[n - 1]];
    }
  }

  lemma {:induction false} MetaDictBack(m: Dict<MetaValue>, n: nat)
    requires n <= |m| && forall i, j :: 0 <= i < j < |m| ==> m[i].0 != m[j].0
    ensures MetaDict(MetaList(m)[..n]) == m[..n]
  {
    var metas := MetaList(m)[..n];
    if n > 0 {
      MetaDictBack(m, n - 1);
      assert metas[..n - 1] == MetaList(m)[..n - 1];
      PutNew(m[..n - 1], metas[n - 1].name, metas[n - 1].value);
      assert m[..n] == m[..n - 1] + [m[n - 1]];
    }
  }

  lemma {:induction false} GrammarBack(s: Style, g: Grammar)
    requires WritableGrammar(s, g)
    ensures MkGrammar(Values(g.rules), MetaList(g.metas)) == g
  {
    hide RuleDict, MetaDict, Values, MetaList, WritableRule, WritableMeta;
    RuleDictBack(g.rules, |g.rules|);
    MetaDictBack(g.metas, |g.metas|);
    WholeLists(g);
  }

  lemma {:induction false} WholeLists(g: Grammar)
    ensures |Values(g.rules)| == |g.rules| && |MetaList(g.metas)| == |g.metas|
    ensures Values(g.rules)[..|g.rules|] == Values(g.rules) && g.rules[..|g.rules|] == g.rules
    ensures MetaList(g.metas)[..|g.metas|] == MetaList(g.metas) && g.metas[..|g.metas|] == g.metas
  {
  }

  lemma {:induction false} WithMetas(ts: Tokens, metas: seq<Meta>, k: nat)
    requires Metas(ts, 0) == Ok(metas, k) && k <= |ts| && 0 < |ts| && ts[0].kind != Name
    ensures GrammarAt(ts, 0) ==
      if Rules(ts, k).Ok? then Ok(MkGrammar(Rules(ts, k).value, metas), Rules(ts, k).end) else Fail
  {
    hide Rules, RuleDict, MetaDict, Metas;
    NoRuleHere(ts, 0);
  }

  lemma {:induction false} WithoutMetas(ts: Tokens)
    requires Metas(ts, 0).Fail?
    ensures GrammarAt(ts, 0) ==
      if Rules(ts, 0).Ok? then Ok(MkGrammar(Rules(ts, 0).value, []), Rules(ts, 0).end) else Fail
  {
    hide Rules, RuleDict, MetaDict, Metas;
  }

  lemma {:induction false} RulesOfWritable(s: Style, g: Grammar)
    requires WritableGrammar(s, g)
    ensures Values(g.rules) != [] && forall r :: r in Values(g.rules) ==> WritableRule(s, r)
    ensures forall m :: m in MetaList(g.metas) ==> WritableMeta(m)
    ensures MetaList(g.metas) == [] <==> g.metas == []
  {
    hide WritableRule, WritableMeta;
  }

  lemma {:induction false} EverythingIsSane(s: Style, rules: seq<Rule>, metas: seq<Meta>, after: Tokens)
    requires (forall r :: r in rules ==> WritableRule(s, r)) && (forall m :: m in metas ==> WritableMeta(m))
    requires Sane(after)
    ensures Sane(WriteMetas(metas) + (WriteRules(s, rules) + after))
  {
    hide WritableRule, WritableMeta, Sane, Even, WriteMetas, WriteRules;
    RulesSquare(s, rules);
    MetasSquare(metas);
    SaneConcat(WriteRules(s, rules), after);
    SaneConcat(WriteMetas(metas), WriteRules(s, rules) + after);
  }

  /** The grammar up to the end, from metas and rules that are written, or what is read up to the first clash. */
  lemma {:induction false} GrammarUpTo(ts: Tokens, s: Style, rules: seq<Rule>, metas: seq<Meta>, last: Token)
    requires Sane(ts) && rules != [] && (forall r :: r in rules ==> WritableRule(s, r))
    requires (forall m :: m in metas ==> WritableMeta(m)) && At(ts, 0, WriteMetas(metas))
    requires RulesWritten(ts, |WriteMetas(metas)|, s, rules, last)
    ensures var e := |WriteMetas(metas)| + |WriteRules(s, rules)|;
            e < |ts| && ts[e] == last &&
            if MetasClash(metas) then GrammarAt(ts, 0).Fail?
            else if RulesClash(s, rules) then
              GrammarAt(ts, 0).Ok? && GrammarAt(ts, 0).end < |ts| && FollowsRuleName(ts[GrammarAt(ts, 0).end])
            else if Rules(ts, e).Ok? then
              GrammarAt(ts, 0) == Ok(MkGrammar(rules + Rules(ts, e).value, metas), Rules(ts, e).end)
            else GrammarAt(ts, 0) == Ok(MkGrammar(rules, metas), e)
  {
    hide Metas, Rules, GrammarAt, WritableRule, WritableMeta, WriteRules, RulesClash, FollowsRuleName, RuleDict;
    hide MetaDict, WriteMetas, Sane, At, EndsRule, MetasClash;
    var k := |WriteMetas(metas)|;
    RulesBack(ts, k, s, rules, last);
    AtSplit(ts, k, WriteRules(s, rules), [last]);
    AtFirst(ts, k + |WriteRules(s, rules)|, [last]);
    FirstToken(ts, k, s, rules, last);
    if metas == [] {
      NoMetasWritten();
      NoMetaHere(ts, 0);
      WithoutMetas(ts);
    } else {
      FirstOfMetas(ts, metas);
      MetasBack(ts, 0, metas);
      WithMetas(ts, Metas(ts, 0).value, Metas(ts, 0).end);
      if MetasClash(metas) {
        NoRuleHere(ts, Metas(ts, 0).end);
      }
    }
  }

  lemma {:induction false} NoMetasWritten()
    ensures WriteMetas([]) == [] && !MetasClash([])
  {
  }

  lemma {:induction false} FirstOfMetas(ts: Tokens, metas: seq<Meta>)
    requires metas != [] && At(ts, 0, WriteMetas(metas))
    ensures 0 < |ts| && ts[0] == Punct("@")
  {
    AtFirst(ts, 0, WriteMetas(metas));
  }

  lemma {:induction false} FirstToken(ts: Tokens, k: nat, s: Style, rules: seq<Rule>, last: Token)
    requires rules != [] && (forall r :: r in rules ==> WritableRule(s, r)) && RulesWritten(ts, k, s, rules, last)
    ensures k < |ts| && ts[k].value != "@"
  {
    hide WritableRule, RulesWritten, FollowsRuleName;
    NextRule(ts, k, s, rules, last);
    assert WritableRule(s, rules[0]);
    NameIsNoAt(s, rules[0]);
  }

  lemma {:induction false} NameIsNoAt(s: Style, r: Rule)
    requires WritableRule(s, r)
    ensures r.name != "@"
  {
    assert r.name[0] in r.name;
  }

  lemma {:induction false} NotTheEnd(ts: Tokens, k: nat)
    requires k < |ts| && FollowsRuleName(ts[k])
    ensures Expect(ts, k, "EndMarker").Fail?
  {
  }

  /**
   Writing and reading undo each other: the tokens of a grammar, in any style,
   are read back as that grammar, and all of them are used. There are two
   exceptions, where words of the grammar are taken for layout; there the
   parser fails.
   */
  lemma {:induction false} ReadingUndoesWriting(s: Style, g: Grammar)
    requires WritableGrammar(s, g)
    ensures var ts := WriteGrammar(s, g);
            Start(ts, 0) ==
            if MetasClash(MetaList(g.metas)) || RulesClash(s, Values(g.rules)) then Fail else Ok(g, |ts|)
  {
    hide Rules, WritableRule, WritableMeta, WriteRules, WriteMetas, RulesClash, MetasClash, FollowsRuleName;
    hide RuleDict, MetaDict, Sane, At, WritableGrammar, Metas, GrammarAt, Values, MetaList;
    var rules, metas, last := Values(g.rules), MetaList(g.metas), Token(EndMarker, "");
    var ts := WriteGrammar(s, g);
    RulesOfWritable(s, g);
    MarkersAreSane();
    EverythingIsSane(s, rules, metas, [last]);
    AtAll(ts);
    AtSplit(ts, 0, WriteMetas(metas), WriteRules(s, rules) + [last]);
    GrammarUpTo(ts, s, rules, metas, last);
    NoRuleHere(ts, |ts| - 1);
    GrammarBack(s, g);
    if !MetasClash(metas) && RulesClash(s, rules) {
      NotTheEnd(ts, GrammarAt(ts, 0).end);
    }
  }

  lemma {:induction false} FourParts(a: Tokens, b: Tokens, c: Tokens, d: Tokens)
    ensures a + b + (c + d) == a + (b + (c + d))
    ensures At(a + b + (c + d), 0, a) && At(a + b + (c + d), |a|, b + c)
  {
    hide At;
    var all := a + b + (c + d);
    assert all == a + ((b + c) + d);
    AtAll(all);
    AtSplit(all, 0, a, (b + c) + d);
    AtSplit(all, |a|, b + c, d);
  }

  lemma {:induction false} AtAll(ts: Tokens)
    ensures At(ts, 0, ts)
  {
  }

  lemma {:induction false} MarkersAreSane()
    ensures Sane([Token(EndMarker, "")]) && Sane([EndWord])
  {
  }

  const SampleCode := [Code("c")]
  const SampleType := [Word("T")]
  const SampleAlt := Alt([NamedItem(Some("n"), Repeat0(NameLeaf("x")), Some("T")),
                          NamedItem(None, Forced(NameLeaf("y")), None)], Some("c"))
  const SampleRule := Rule("a", Some("T"), Rhs([SampleAlt, Alt([Leaf("x")], None)]))
  const SampleGrammar := Grammar([("a", SampleRule)], [("m", NameValue("v"))])
  const SampleStyle := Style(map["c" := SampleCode, "T" := SampleType], {SampleRule}, map[SampleRule := Layout(1, [1])])

  lemma {:induction false} Letters()
    ensures forall v :: v in {"a", "c", "m", "n", "v", "x", "y", "T"} ==> Identifier(v)
  {
  }

  lemma {:induction false} SampleSpellings()
    ensures Spelled(SampleStyle, "c") && Spelled(SampleStyle, "T")
  {
    Letters();
    assert Trim("c") == "c";
    assert SampleCode[1..] == [] && SampleType[1..] == [];
  }

  /** For instance `@m v`, `a[T] (memo): n[T]=x* &&y {c}` and, on a line of its own, `| x`. */
  lemma {:induction false} SampleIsRead()
    ensures WritableGrammar(SampleStyle, SampleGrammar)
    ensures Start(WriteGrammar(SampleStyle, SampleGrammar), 0)
            == Ok(SampleGrammar, |WriteGrammar(SampleStyle, SampleGrammar)|)
  {
    hide Start, Identifier, Spelled, WriteGrammar;
    Letters();
    SampleSpellings();
    assert Writable(SampleStyle, Forced(NameLeaf("y"))) && Writable(SampleStyle, Repeat0(NameLeaf("x")));
    assert WritableAlt(SampleStyle, SampleAlt) && WritableAlt(SampleStyle, Alt([Leaf("x")], None));
    assert LayoutOf(SampleStyle, SampleRule) == Layout(1, [1]);
    assert Fits([1], 1) && [1][1..] == [];
    assert WritableRule(SampleStyle, SampleRule);
    assert "v" != "NewLine" by {
      assert |"v"| == 1;
    }
    ReadingUndoesWriting(SampleStyle, SampleGrammar);
  }

  /** A meta with the name `NewLine` for its value is lost, and the whole grammar with it. */
  lemma {:induction false} AMetaClashFails(s: Style, g: Grammar, name: string)
    requires WritableGrammar(s, g) && (name, NameValue("NewLine")) in g.metas
    ensures Start(WriteGrammar(s, g), 0).Fail?
  {
    hide Start, WritableGrammar, WriteGrammar, RulesClash;
    var k :| 0 <= k < |g.metas| && g.metas[k] == (name, NameValue("NewLine"));
    assert MetaList(g.metas)[k] == Meta(name, NameValue("NewLine"));
    ReadingUndoesWriting(s, g);
  }

  /**
   `expect` compares values first, so the end may come early: after any metas
   and rules that are read back, the word `EndMarker` ends the input and hides
   what follows exactly when no rule can be read from it on.
   */
  lemma {:induction false} TheWordEndMarkerHidesTheRest(s: Style, rules: seq<Rule>, metas: seq<Meta>, after: Tokens)
    requires rules != [] && (forall r :: r in rules ==> WritableRule(s, r))
    requires (forall m :: m in metas ==> WritableMeta(m)) && Sane(after)
    ensures var written := WriteMetas(metas) + WriteRules(s, rules);
            var ts, e := written + ([EndWord] + after), |written|;
            && (MetasClash(metas) || RulesClash(s, rules) ==> Start(ts, 0).Fail?)
            && (!MetasClash(metas) && !RulesClash(s, rules) ==>
                  (Start(ts, 0) == Ok(MkGrammar(rules, metas), e + 1) <==> Rules(ts, e).Fail?))
            && (after == [] || after[0].value !in {":", "[", "("} ==> Rules(ts, e).Fail?)
  {
    hide Rules, WritableRule, WritableMeta, WriteRules, WriteMetas, RulesClash, MetasClash, FollowsRuleName;
    hide RuleDict, MetaDict, Sane, At, Metas, GrammarAt;
    var m, r := WriteMetas(metas), WriteRules(s, rules);
    var ts, e := m + r + ([EndWord] + after), |m + r|;
    MarkersAreSane();
    SaneConcat([EndWord], after);
    EverythingIsSane(s, rules, metas, [EndWord] + after);
    FourParts(m, r, [EndWord], after);
    GrammarUpTo(ts, s, rules, metas, EndWord);
    assert after != [] ==> ts[e + 1] == after[0];
    if after == [] || after[0].value !in {":", "[", "("} {
      NoHead(ts, e);
    }
    if !MetasClash(metas) && RulesClash(s, rules) {
      NotTheEnd(ts, GrammarAt(ts, 0).end);
    }
  }

  lemma {:induction false} NoHead(ts: Tokens, i: nat)
    requires i < |ts| && (i + 1 < |ts| ==> ts[i + 1].value !in {":", "[", "("})
    ensures Rules(ts, i).Fail?
  {
    hide Alts, MoreAlts, TargetAtoms;
    assert Annotation(ts, i + 1).Fail? && MemoFlag(ts, i + 1).Fail?;
    assert RuleHead(ts, i).Fail?;
  }
}
