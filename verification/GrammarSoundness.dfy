/**
 Nothing is read that is not there: which token lists stand for which trees, and
 that the recursive descent gives a tree only for tokens that stand for it.
 */
module GrammarSoundness {
  import opened Wrappers
  import opened GrammarTree
  import opened GrammarDescent
  import opened GrammarPrinter
  import opened GrammarWriting

  // Which part of a token list stands for what, from one index up to another

  /** A token says a text by its value, and a word for layout also by its type. */
  predicate Says(ts: Tokens, i: nat, text: string) {
    i < |ts| && (ts[i].value == text || (text in SpecialWords && TypeName(ts[i].kind) == text))
  }

  predicate IsToken(ts: Tokens, i: nat, t: Token, j: nat) {
    j == i + 1 <= |ts| && ts[i] == t
  }

  ghost predicate IsTargetAtom(ts: Tokens, i: nat, a: Atom, j: nat)
    decreases a
  {
    TruthyText(AtomText(a)) &&
    match a
    case Code(v) => IsToken(ts, i, Token(GrammarAction, v), j)
    case Word(v) => IsToken(ts, i, Token(Name, v), j)
    case StarWord(v) => IsToken(ts, i, Token(Name, v), i + 1) && Says(ts, i + 1, "*") && j == i + 2
    case Num(v) => IsToken(ts, i, Token(Number, v), j)
    case Str(v) => IsToken(ts, i, Token(String, v), j)
    case Sign(v) => i < |ts| && ts[i].value == v && (ts[i].kind == Op || v in {"?", ":"}) && j == i + 1
    case Nested(atoms) =>
      i + 1 < j && Says(ts, i, "[") && IsTargetAtoms(ts, i + 1, atoms, j - 1) && Says(ts, j - 1, "]")
  }

  ghost predicate IsTargetAtoms(ts: Tokens, i: nat, atoms: seq<Atom>, j: nat)
    decreases atoms
  {
    if atoms == [] then i == j
    else exists k: nat :: IsTargetAtom(ts, i, atoms[0], k) && IsTargetAtoms(ts, k, atoms[1..], j)
  }

  ghost predicate IsText(ts: Tokens, i: nat, text: string, j: nat) {
    exists atoms :: atoms != [] && AtomsText(atoms) == text && IsTargetAtoms(ts, i, atoms, j)
  }

  ghost predicate IsAction(ts: Tokens, i: nat, action: Option<string>, j: nat) {
    if action.None? then i == j
    else i + 1 < j && Says(ts, i, "{") && IsText(ts, i + 1, action.value, j - 1) && Says(ts, j - 1, "}")
  }

  ghost predicate IsType(ts: Tokens, i: nat, annotation: Option<string>, j: nat) {
    if annotation.None? then i == j
    else i + 1 < j && Says(ts, i, "[") && IsText(ts, i + 1, annotation.value, j - 1) && Says(ts, j - 1, "]")
  }

  ghost predicate IsMarked(ts: Tokens, i: nat, x: Item, mark: string, j: nat)
    decreases x, 1
  {
    i < j && IsAtom(x) && IsItem(ts, i, x, j - 1) && Says(ts, j - 1, mark)
  }

  ghost predicate IsItem(ts: Tokens, i: nat, x: Item, j: nat)
    decreases x, 0
  {
    match x
    case NameLeaf(v) => IsToken(ts, i, Token(Name, v), j)
    case StringLeaf(v) => IsToken(ts, i, Token(String, v), j)
    case Group(r) => i + 1 < j && Says(ts, i, "(") && IsAlts(ts, i + 1, r.alts, j - 1) && Says(ts, j - 1, ")")
    case RhsItem(_) => false
    case Opt(RhsItem(r)) => i + 1 < j && Says(ts, i, "[") && IsAlts(ts, i + 1, r.alts, j - 1) && Says(ts, j - 1, "]")
    case Opt(n) => IsMarked(ts, i, n, "?", j)
    case Repeat0(n) => IsMarked(ts, i, n, "*", j)
    case Repeat1(n) => IsMarked(ts, i, n, "+", j)
    case Gather(separator, n) =>
      exists k: nat :: IsMarked(ts, i, separator, ".", k) && IsMarked(ts, k, n, "+", j)
    case Forced(n) => Says(ts, i, "&") && Says(ts, i + 1, "&") && IsAtom(n) && IsItem(ts, i + 2, n, j)
    case PositiveLookahead(n) => Says(ts, i, "&") && IsAtom(n) && IsItem(ts, i + 1, n, j)
    case NegativeLookahead(n) => Says(ts, i, "!") && IsAtom(n) && IsItem(ts, i + 1, n, j)
    case Cut => Says(ts, i, "~") && j == i + 1
  }

  predicate IsSign(x: Item) {
    x.Forced? || x.PositiveLookahead? || x.NegativeLookahead? || x.Cut?
  }

  ghost predicate IsName(ts: Tokens, i: nat, name: string, annotation: Option<string>, j: nat) {
    && i + 1 < j && IsToken(ts, i, Token(Name, name), i + 1)
    && IsType(ts, i + 1, annotation, j - 1) && Says(ts, j - 1, "=")
  }

  ghost predicate IsNamedItem(ts: Tokens, i: nat, n: NamedItem, j: nat)
    decreases n
  {
    if n.name.None? then n.annotation.None? && IsItem(ts, i, n.item, j)
    else
      !IsSign(n.item) && exists k: nat :: IsName(ts, i, n.name.value, n.annotation, k) && IsItem(ts, k, n.item, j)
  }

  ghost predicate IsItems(ts: Tokens, i: nat, items: seq<NamedItem>, j: nat)
    decreases items
  {
    if items == [] then i == j
    else exists k: nat :: IsNamedItem(ts, i, items[0], k) && IsItems(ts, k, items[1..], j)
  }

  ghost predicate IsPlainAlt(ts: Tokens, i: nat, a: Alt, j: nat)
    decreases a, 0
  {
    a.items != [] && exists k: nat :: IsItems(ts, i, a.items, k) && IsAction(ts, k, a.action, j)
  }

  ghost predicate IsDollarAlt(ts: Tokens, i: nat, a: Alt, j: nat)
    decreases a, 0
  {
    && EndsInDollar(a)
    && exists k: nat :: IsItems(ts, i, Body(a), k) && Says(ts, k, "$") && IsAction(ts, k + 1, a.action, j)
  }

  ghost predicate IsAlt(ts: Tokens, i: nat, a: Alt, j: nat)
    decreases a, 1
  {
    IsPlainAlt(ts, i, a, j) || IsDollarAlt(ts, i, a, j)
  }

  ghost predicate IsAlts(ts: Tokens, i: nat, alts: seq<Alt>, j: nat)
    decreases alts
  {
    alts != [] &&
    if |alts| == 1 then IsAlt(ts, i, alts[0], j)
    else exists k: nat :: IsAlt(ts, i, alts[0], k) && Says(ts, k, "|") && IsAlts(ts, k + 1, alts[1..], j)
  }

  ghost predicate IsLines(ts: Tokens, i: nat, alts: seq<Alt>, j: nat)
    decreases |alts|
  {
    Says(ts, i, "|") &&
    exists n: nat, k: nat ::
      && 0 < n <= |alts| && IsAlts(ts, i + 1, alts[..n], k) && Says(ts, k, "NewLine")
      && if n == |alts| then j == k + 1 else IsLines(ts, k + 1, alts[n..], j)
  }

  ghost predicate IsBlock(ts: Tokens, i: nat, alts: seq<Alt>, j: nat) {
    i + 1 < j && Says(ts, i, "Indent") && IsLines(ts, i + 1, alts, j - 1) && Says(ts, j - 1, "Dedent")
  }

  predicate IsColon(ts: Tokens, i: nat, j: nat) {
    || (Says(ts, i, ":") && j == i + 1)
    || (Says(ts, i, "(") && Says(ts, i + 1, "memo") && Says(ts, i + 2, ")") && Says(ts, i + 3, ":") && j == i + 4)
  }

  ghost predicate IsHead(ts: Tokens, i: nat, name: string, annotation: Option<string>, j: nat) {
    && IsToken(ts, i, Token(Name, name), i + 1)
    && exists k: nat :: IsType(ts, i + 1, annotation, k) && IsColon(ts, k, j)
  }

  /** On one line, in a block, or with the first alternatives on the line of the head and others in a block. */
  ghost predicate IsRhs(ts: Tokens, h: nat, alts: seq<Alt>, j: nat) {
    || (h < j && IsAlts(ts, h, alts, j - 1) && Says(ts, j - 1, "NewLine"))
    || (Says(ts, h, "NewLine") && IsBlock(ts, h + 1, alts, j))
    || exists n: nat, k: nat ::
         0 < n < |alts| && IsAlts(ts, h, alts[..n], k) && Says(ts, k, "NewLine") && IsBlock(ts, k + 1, alts[n..], j)
  }

  ghost predicate IsRule(ts: Tokens, i: nat, r: Rule, j: nat) {
    exists h: nat :: IsHead(ts, i, r.name, r.annotation, h) && IsRhs(ts, h, r.rhs.alts, j)
  }

  ghost predicate IsRules(ts: Tokens, i: nat, rules: seq<Rule>, j: nat)
    decreases |rules|
  {
    if rules == [] then i == j
    else exists k: nat :: IsRule(ts, i, rules[0], k) && IsRules(ts, k, rules[1..], j)
  }

  predicate IsMeta(ts: Tokens, i: nat, m: Meta, j: nat) {
    && Says(ts, i, "@") && IsToken(ts, i + 1, Token(Name, m.name), i + 2) && 0 < j && Says(ts, j - 1, "NewLine")
    && match m.value
       case NoValue => j == i + 3
       case NameValue(v) => IsToken(ts, i + 2, Token(Name, v), j - 1)
       case LiteralValue(v) => IsToken(ts, i + 2, Token(String, v), j - 1)
  }

  ghost predicate IsMetas(ts: Tokens, i: nat, metas: seq<Meta>, j: nat)
    decreases |metas|
  {
    if metas == [] then i == j
    else exists k: nat :: IsMeta(ts, i, metas[0], k) && IsMetas(ts, k, metas[1..], j)
  }

  ghost predicate IsGrammar(ts: Tokens, i: nat, g: Grammar, j: nat) {
    exists metas, k: nat, rules ::
      g == MkGrammar(rules, metas) && rules != [] && IsMetas(ts, i, metas, k) && IsRules(ts, k, rules, j)
  }

  // Whatever is read is there.

  lemma {:induction false} ExpectSays(ts: Tokens, i: nat, text: string)
    requires i <= |ts|
    ensures Expect(ts, i, text).Ok? <==> Says(ts, i, text)
  {
    assert "NewLine"[0] == 'N' && "EndMarker"[0] == 'E' && "Indent"[0] == 'I' && "Dedent"[0] == 'D';
  }

  lemma {:induction false} OneTokenIs(ts: Tokens, i: nat, kind: TokenType)
    requires i <= |ts|
    ensures OfType(ts, i, kind).Ok? ==>
              IsToken(ts, i, Token(kind, OfType(ts, i, kind).value.value), i + 1) && OfType(ts, i, kind).end == i + 1
  {
  }

  // Types and actions

  lemma {:induction false} PlainTargetIs(ts: Tokens, i: nat)
    requires i <= |ts| && Expect(ts, i, "[").Fail? && TargetAtom(ts, i).Ok? && TruthyText(TargetAtom(ts, i).value)
    ensures exists a :: IsTargetAtom(ts, i, a, TargetAtom(ts, i).end) && AtomText(a) == TargetAtom(ts, i).value
  {
    hide TargetAtoms, Trim;
    var r := TargetAtom(ts, i);
    var v := ts[i].value;
    var a := match ts[i].kind
      case GrammarAction => Code(v)
      case Name => if r.end == i + 2 then StarWord(v) else Word(v)
      case Number => Num(v)
      case String => Str(v)
      case _ => Sign(v);
    assert IsTargetAtom(ts, i, a, r.end) && AtomText(a) == r.value;
  }

  lemma {:induction false} NestedTargetIs(ts: Tokens, i: nat)
    requires i < |ts| && Expect(ts, i, "[").Ok? && ts[i].kind != GrammarAction && TargetAtom(ts, i).Ok?
    ensures var r, inner := TargetAtom(ts, i), TargetAtoms(ts, i + 1);
            && r.value == "[]" && r.end > i + 1 && Says(ts, r.end - 1, "]") && Says(ts, i, "[")
            && r.end - 1 == if inner.Ok? then inner.end else i + 1
  {
    hide TargetAtoms, Trim;
  }

  lemma {:induction false} NestedOf(ts: Tokens, i: nat, atoms: seq<Atom>, j: nat)
    requires i + 1 < j && Says(ts, i, "[") && IsTargetAtoms(ts, i + 1, atoms, j - 1) && Says(ts, j - 1, "]")
    ensures IsTargetAtom(ts, i, Nested(atoms), j) && AtomText(Nested(atoms)) == "[]"
  {
    hide IsTargetAtoms, Says;
  }

  lemma {:induction false} TargetAtomIs(ts: Tokens, i: nat)
    requires i <= |ts| && TargetAtom(ts, i).Ok? && TruthyText(TargetAtom(ts, i).value)
    ensures exists a :: IsTargetAtom(ts, i, a, TargetAtom(ts, i).end) && AtomText(a) == TargetAtom(ts, i).value
    decreases |ts| - i, 0
  {
    hide TargetAtoms, TargetAtom, Trim, IsTargetAtom, Says;
    if Expect(ts, i, "[").Fail? {
      PlainTargetIs(ts, i);
    } else if ts[i].kind == GrammarAction {
      CodeIs(ts, i);
    } else {
      NestedTargetIs(ts, i);
      var inner, e := TargetAtoms(ts, i + 1), TargetAtom(ts, i).end;
      if inner.Ok? {
        TargetAtomsIs(ts, i + 1);
        var atoms :| atoms != [] && AtomsText(atoms) == inner.value && IsTargetAtoms(ts, i + 1, atoms, inner.end);
        NestedOf(ts, i, atoms, e);
      } else {
        assert IsTargetAtoms(ts, i + 1, [], i + 1);
        NestedOf(ts, i, [], e);
      }
    }
  }

  lemma {:induction false} CodeIs(ts: Tokens, i: nat)
    requires i < |ts| && ts[i].kind == GrammarAction && TargetAtom(ts, i).Ok? && TruthyText(TargetAtom(ts, i).value)
    ensures exists a :: IsTargetAtom(ts, i, a, TargetAtom(ts, i).end) && AtomText(a) == TargetAtom(ts, i).value
  {
    hide TargetAtoms, Trim;
    assert IsTargetAtom(ts, i, Code(ts[i].value), i + 1);
  }

  lemma {:induction false} OneAndMore(ts: Tokens, i: nat, a: Atom, k: nat, more: seq<Atom>, j: nat)
    requires IsTargetAtom(ts, i, a, k) && IsTargetAtoms(ts, k, more, j)
    ensures IsTargetAtoms(ts, i, [a] + more, j)
    ensures AtomsText([a] + more) == if more == [] then AtomText(a) else AtomText(a) + " " + AtomsText(more)
  {
    hide IsTargetAtom;
    assert ([a] + more)[1..] == more;
  }

  lemma {:induction false} TargetAtomsIs(ts: Tokens, i: nat)
    requires i <= |ts| && TargetAtoms(ts, i).Ok?
    ensures IsText(ts, i, TargetAtoms(ts, i).value, TargetAtoms(ts, i).end)
    decreases |ts| - i, 1
  {
    hide TargetAtom, IsTargetAtom, AtomText, AtomsText;
    var atom := TargetAtom(ts, i);
    TargetAtomIs(ts, i);
    var a :| IsTargetAtom(ts, i, a, atom.end) && AtomText(a) == atom.value;
    var more := TargetAtoms(ts, atom.end);
    if more.Ok? {
      TargetAtomsIs(ts, atom.end);
      var atoms :| atoms != [] && AtomsText(atoms) == more.value && IsTargetAtoms(ts, atom.end, atoms, more.end);
      OneAndMore(ts, i, a, atom.end, atoms, more.end);
    } else {
      OneAndMore(ts, i, a, atom.end, [], atom.end);
    }
  }

  lemma {:induction false} ActionIs(ts: Tokens, i: nat)
    requires i <= |ts|
    ensures Action(ts, i).Ok? ==> IsAction(ts, i, Some(Action(ts, i).value), Action(ts, i).end)
  {
    hide TargetAtoms, IsText;
    if Action(ts, i).Ok? {
      TargetAtomsIs(ts, i + 1);
    }
  }

  lemma {:induction false} AnnotationIs(ts: Tokens, i: nat)
    requires i <= |ts|
    ensures Annotation(ts, i).Ok? ==> IsType(ts, i, Some(Annotation(ts, i).value), Annotation(ts, i).end)
  {
    hide TargetAtoms, IsText;
    if Annotation(ts, i).Ok? {
      TargetAtomsIs(ts, i + 1);
    }
  }

  // Items

  lemma {:induction false} AtomAtIs(ts: Tokens, i: nat)
    requires i <= |ts| && AtomAt(ts, i).Ok?
    ensures IsAtom(AtomAt(ts, i).value) && IsItem(ts, i, AtomAt(ts, i).value, AtomAt(ts, i).end)
    decreases |ts| - i, 1, 0
  {
    hide Alts, IsAlts;
    if Expect(ts, i, "(").Ok? {
      AltsIs(ts, i + 1);
    }
  }

  lemma {:induction false} MarkedIs(ts: Tokens, i: nat, mark: string)
    requires i <= |ts| && mark in {"?", "*", "+"} && Marked(ts, i, mark).Ok?
    ensures IsMarked(ts, i, Marked(ts, i, mark).value, mark, Marked(ts, i, mark).end)
    decreases |ts| - i, 1, 1
  {
    hide AtomAt, Expect, IsItem;
    AtomAtIs(ts, i);
    ExpectSays(ts, AtomAt(ts, i).end, mark);
  }

  lemma {:induction false} GatherIs(ts: Tokens, i: nat)
    requires i <= |ts| && GatherAt(ts, i).Ok?
    ensures IsItem(ts, i, GatherAt(ts, i).value, GatherAt(ts, i).end)
    decreases |ts| - i, 1, 1
  {
    hide AtomAt, Expect;
    var separator := AtomAt(ts, i);
    var node := AtomAt(ts, separator.end + 1);
    AtomAtIs(ts, i);
    ExpectSays(ts, separator.end, ".");
    AtomAtIs(ts, separator.end + 1);
    ExpectSays(ts, node.end, "+");
    GatherOf(ts, i, separator.value, separator.end + 1, node.value, node.end + 1);
  }

  lemma {:induction false} GatherOf(ts: Tokens, i: nat, separator: Item, k: nat, n: Item, j: nat)
    requires IsAtom(separator) && i < k && IsItem(ts, i, separator, k - 1) && Says(ts, k - 1, ".")
    requires IsAtom(n) && k < j && IsItem(ts, k, n, j - 1) && Says(ts, j - 1, "+")
    ensures IsItem(ts, i, Gather(separator, n), j)
  {
    assert IsMarked(ts, i, separator, ".", k) && IsMarked(ts, k, n, "+", j);
  }

  lemma {:induction false} BracketsIs(ts: Tokens, i: nat)
    requires i <= |ts| && Expect(ts, i, "[").Ok? && ItemAt(ts, i).Ok?
    ensures IsItem(ts, i, ItemAt(ts, i).value, ItemAt(ts, i).end)
    decreases |ts| - i, 2, 0
  {
    hide Alts, IsAlts;
    AltsIs(ts, i + 1);
  }

  lemma {:induction false} ItemAtIs(ts: Tokens, i: nat)
    requires i <= |ts| && ItemAt(ts, i).Ok?
    ensures IsItem(ts, i, ItemAt(ts, i).value, ItemAt(ts, i).end)
    ensures !IsSign(ItemAt(ts, i).value)
    decreases |ts| - i, 2, 1
  {
    hide AtomAt, Alts, Marked, GatherAt, Expect, IsAlts, Says;
    if Expect(ts, i, "[").Ok? {
      BracketsIs(ts, i);
    } else if Marked(ts, i, "?").Ok? {
      MarkedIs(ts, i, "?");
    } else if Marked(ts, i, "*").Ok? {
      MarkedIs(ts, i, "*");
    } else if Marked(ts, i, "+").Ok? {
      MarkedIs(ts, i, "+");
    } else if GatherAt(ts, i).Ok? {
      GatherIs(ts, i);
      GatherIsGather(ts, i);
    } else {
      AtomAtIs(ts, i);
    }
  }

  lemma {:induction false} GatherIsGather(ts: Tokens, i: nat)
    requires i <= |ts| && GatherAt(ts, i).Ok?
    ensures GatherAt(ts, i).value.Gather?
  {
    hide AtomAt, Expect;
  }

  lemma {:induction false} ForcedIs(ts: Tokens, i: nat)
    requires i <= |ts| && ForcedAtom(ts, i).Ok?
    ensures IsItem(ts, i, ForcedAtom(ts, i).value, ForcedAtom(ts, i).end)
    decreases |ts| - i, 2, 0
  {
    hide AtomAt, Expect;
    ExpectSays(ts, i, "&");
    ExpectSays(ts, i + 1, "&");
    AtomAtIs(ts, i + 2);
  }

  lemma {:induction false} LookaheadIs(ts: Tokens, i: nat)
    requires i <= |ts| && LookaheadAt(ts, i).Ok?
    ensures IsItem(ts, i, LookaheadAt(ts, i).value, LookaheadAt(ts, i).end)
    decreases |ts| - i, 2, 0
  {
    hide AtomAt, Expect;
    ExpectSays(ts, i, "&");
    ExpectSays(ts, i, "!");
    ExpectSays(ts, i, "~");
    if AtomAt(ts, i + 1).Ok? {
      AtomAtIs(ts, i + 1);
    }
  }

  lemma {:induction false} NameIs(ts: Tokens, i: nat)
    requires i <= |ts|
    ensures var typed := TypedBinding(ts, i);
            typed.Ok? ==> IsName(ts, i, typed.value.name, typed.value.annotation, typed.end)
    ensures var plain := PlainBinding(ts, i);
            plain.Ok? ==> IsName(ts, i, plain.value, None, plain.end)
  {
    hide Annotation, IsType;
    if i < |ts| {
      AnnotationIs(ts, i + 1);
      assert IsType(ts, i + 1, None, i + 1) by {
        NoTypeIs(ts, i + 1);
      }
    }
  }

  lemma {:induction false} NoTypeIs(ts: Tokens, i: nat)
    ensures IsType(ts, i, None, i)
  {
  }

  lemma {:induction false} NamedOf(ts: Tokens, i: nat, k: nat, n: NamedItem, j: nat)
    requires IsItem(ts, k, n.item, j)
    requires n.name.None? ==> n.annotation.None? && i == k
    requires n.name.Some? ==> IsName(ts, i, n.name.value, n.annotation, k) && !IsSign(n.item)
    ensures IsNamedItem(ts, i, n, j)
  {
    hide IsItem, IsName;
  }

  lemma {:induction false} NamedItemIs(ts: Tokens, i: nat)
    requires i <= |ts| && NamedItemAt(ts, i).Ok?
    ensures IsNamedItem(ts, i, NamedItemAt(ts, i).value, NamedItemAt(ts, i).end)
    decreases |ts| - i, 3
  {
    hide ItemAt, TypedBinding, PlainBinding, ForcedAtom, LookaheadAt, IsItem, IsName, IsNamedItem;
    var typed, plain, r := TypedBinding(ts, i), PlainBinding(ts, i), NamedItemAt(ts, i);
    NameIs(ts, i);
    var k := if typed.Ok? then typed.end else if plain.Ok? then plain.end else i;
    if ItemAt(ts, k).Ok? {
      ItemAtIs(ts, k);
    } else if ForcedAtom(ts, i).Ok? {
      ForcedIs(ts, i);
    } else {
      LookaheadIs(ts, i);
    }
    NamedOf(ts, i, k, r.value, r.end);
  }

  lemma {:induction false} ItemsOf(ts: Tokens, i: nat, n: NamedItem, k: nat, more: seq<NamedItem>, j: nat)
    requires IsNamedItem(ts, i, n, k) && IsItems(ts, k, more, j)
    ensures IsItems(ts, i, [n] + more, j)
  {
    hide IsNamedItem;
    assert ([n] + more)[1..] == more;
  }

  lemma {:induction false} NoItemsIs(ts: Tokens, i: nat)
    ensures IsItems(ts, i, [], i)
  {
  }

  lemma {:induction false} ItemsIs(ts: Tokens, i: nat)
    requires i <= |ts| && Items(ts, i).Ok?
    ensures IsItems(ts, i, Items(ts, i).value, Items(ts, i).end)
    decreases |ts| - i, 4
  {
    hide NamedItemAt, IsNamedItem, IsItems;
    var item := NamedItemAt(ts, i);
    NamedItemIs(ts, i);
    var more := Items(ts, item.end);
    if more.Ok? {
      ItemsIs(ts, item.end);
      ItemsOf(ts, i, item.value, item.end, more.value, more.end);
    } else {
      NoItemsIs(ts, item.end);
      ItemsOf(ts, i, item.value, item.end, [], item.end);
      assert [item.value] + [] == [item.value];
    }
  }

  // Alternatives

  lemma {:induction false} DollarOf(ts: Tokens, i: nat, items: seq<NamedItem>, k: nat, action: Option<string>, j: nat)
    requires items != [] && IsItems(ts, i, items, k) && Says(ts, k, "$") && IsAction(ts, k + 1, action, j)
    ensures IsAlt(ts, i, Alt(items + [EndItem], action), j)
  {
    hide IsItems, IsAction;
    var a := Alt(items + [EndItem], action);
    assert Body(a) == items;
    assert IsDollarAlt(ts, i, a, j);
  }

  lemma {:induction false} PlainOf(ts: Tokens, i: nat, items: seq<NamedItem>, k: nat, action: Option<string>, j: nat)
    requires items != [] && IsItems(ts, i, items, k) && IsAction(ts, k, action, j)
    ensures IsAlt(ts, i, Alt(items, action), j)
  {
    hide IsItems, IsAction;
    assert IsPlainAlt(ts, i, Alt(items, action), j);
  }

  lemma {:induction false} NoActionIs(ts: Tokens, i: nat)
    ensures IsAction(ts, i, None, i)
  {
  }

  lemma {:induction false} AltAtIs(ts: Tokens, i: nat)
    requires i <= |ts| && AltAt(ts, i).Ok?
    ensures IsAlt(ts, i, AltAt(ts, i).value, AltAt(ts, i).end)
    decreases |ts| - i, 5
  {
    hide Items, Action, Expect, IsItems, IsAction, IsAlt;
    var items, r := Items(ts, i), AltAt(ts, i);
    ItemsIs(ts, i);
    ExpectSays(ts, items.end, "$");
    NoActionIs(ts, items.end);
    ActionIs(ts, items.end);
    if Expect(ts, items.end, "$").Ok? {
      NoActionIs(ts, items.end + 1);
      ActionIs(ts, items.end + 1);
      DollarOf(ts, i, items.value, items.end, r.value.action, r.end);
    } else {
      PlainOf(ts, i, items.value, items.end, r.value.action, r.end);
    }
  }

  lemma {:induction false} AltsOf(ts: Tokens, i: nat, a: Alt, k: nat, more: seq<Alt>, j: nat)
    requires IsAlt(ts, i, a, k)
    requires if more == [] then j == k else Says(ts, k, "|") && IsAlts(ts, k + 1, more, j)
    ensures IsAlts(ts, i, [a] + more, j)
  {
    hide IsAlt;
    assert ([a] + more)[1..] == more;
  }

  lemma {:induction false} AltsIs(ts: Tokens, i: nat)
    requires i <= |ts| && Alts(ts, i).Ok?
    ensures IsAlts(ts, i, Alts(ts, i).value.alts, Alts(ts, i).end)
    decreases |ts| - i, 6
  {
    hide AltAt, Expect, IsAlt, IsAlts;
    var alt := AltAt(ts, i);
    AltAtIs(ts, i);
    ExpectSays(ts, alt.end, "|");
    if Expect(ts, alt.end, "|").Ok? && Alts(ts, alt.end + 1).Ok? {
      var more := Alts(ts, alt.end + 1);
      AltsIs(ts, alt.end + 1);
      assert more.value.alts != [] by {
        NoAltsAreNone(ts, alt.end + 1, more.value.alts, more.end);
      }
      AltsOf(ts, i, alt.value, alt.end, more.value.alts, more.end);
    } else {
      AltsOf(ts, i, alt.value, alt.end, [], alt.end);
      assert [alt.value] + [] == [alt.value];
    }
  }

  lemma {:induction false} NoAltsAreNone(ts: Tokens, i: nat, alts: seq<Alt>, j: nat)
    requires IsAlts(ts, i, alts, j)
    ensures alts != []
  {
  }

  // Rules

  lemma {:induction false} LinesOf(ts: Tokens, i: nat, a: seq<Alt>, k: nat, more: seq<Alt>, j: nat)
    requires Says(ts, i, "|") && a != [] && IsAlts(ts, i + 1, a, k) && Says(ts, k, "NewLine")
    requires if more == [] then j == k + 1 else IsLines(ts, k + 1, more, j)
    ensures IsLines(ts, i, a + more, j)
  {
    hide IsAlts, Says;
    var n := |a|;
    assert (a + more)[..n] == a && (a + more)[n..] == more;
    assert IsAlts(ts, i + 1, (a + more)[..n], k);
  }

  lemma {:induction false} LineIs(ts: Tokens, i: nat)
    requires i <= |ts| && AltsLine(ts, i).Ok?
    ensures var r := AltsLine(ts, i);
            && Says(ts, i, "|") && r.value.alts != [] && r.end > 0
            && IsAlts(ts, i + 1, r.value.alts, r.end - 1) && Says(ts, r.end - 1, "NewLine")
  {
    hide Alts, IsAlts, Expect, Says;
    ExpectSays(ts, i, "|");
    AltsIs(ts, i + 1);
    var alts := Alts(ts, i + 1);
    NoAltsAreNone(ts, i + 1, alts.value.alts, alts.end);
    ExpectSays(ts, alts.end, "NewLine");
  }

  lemma {:induction false} MoreAltsIs(ts: Tokens, i: nat)
    requires i <= |ts| && MoreAlts(ts, i).Ok?
    ensures MoreAlts(ts, i).value.alts != [] && IsLines(ts, i, MoreAlts(ts, i).value.alts, MoreAlts(ts, i).end)
    decreases |ts| - i
  {
    hide AltsLine, IsLines, IsAlts, Says;
    var line := AltsLine(ts, i);
    LineIs(ts, i);
    var more := MoreAlts(ts, line.end);
    if more.Ok? {
      MoreAltsIs(ts, line.end);
      LinesOf(ts, i, line.value.alts, line.end - 1, more.value.alts, more.end);
    } else {
      LinesOf(ts, i, line.value.alts, line.end - 1, [], line.end);
      assert line.value.alts + [] == line.value.alts;
    }
  }

  lemma {:induction false} BlockIs(ts: Tokens, i: nat)
    requires i <= |ts| && Block(ts, i).Ok?
    ensures Block(ts, i).value.alts != [] && IsBlock(ts, i, Block(ts, i).value.alts, Block(ts, i).end)
  {
    hide MoreAlts, IsLines, Expect, Says;
    ExpectSays(ts, i, "Indent");
    MoreAltsIs(ts, i + 1);
    ExpectSays(ts, MoreAlts(ts, i + 1).end, "Dedent");
  }

  lemma {:induction false} HeadOf(ts: Tokens, i: nat, name: RuleName, k: nat, j: nat)
    requires IsToken(ts, i, Token(Name, name.name), i + 1) && IsType(ts, i + 1, name.annotation, k) && IsColon(ts, k, j)
    ensures IsHead(ts, i, name.name, name.annotation, j)
  {
    hide IsToken, IsType, IsColon;
  }

  lemma {:induction false} RuleNameIs(ts: Tokens, i: nat)
    requires i <= |ts| && RuleNameAt(ts, i).Ok?
    ensures var r := RuleNameAt(ts, i);
            IsToken(ts, i, Token(Name, r.value.name), i + 1) && IsType(ts, i + 1, r.value.annotation, r.end)
  {
    hide Annotation, IsType;
    AnnotationIs(ts, i + 1);
    NoTypeIs(ts, i + 1);
  }

  lemma {:induction false} ColonIs(ts: Tokens, k: nat)
    requires k <= |ts|
    ensures var memo := MemoFlag(ts, k);
            var colon := Expect(ts, if memo.Ok? then memo.end else k, ":");
            colon.Ok? ==> IsColon(ts, k, colon.end)
  {
  }

  lemma {:induction false} HeadIs(ts: Tokens, i: nat)
    requires i <= |ts| && RuleHead(ts, i).Ok?
    ensures IsHead(ts, i, RuleHead(ts, i).value.name, RuleHead(ts, i).value.annotation, RuleHead(ts, i).end)
  {
    hide RuleNameAt, MemoFlag, Expect, IsHead, IsToken, IsType, IsColon;
    var name := RuleNameAt(ts, i);
    RuleNameIs(ts, i);
    ColonIs(ts, name.end);
    HeadOf(ts, i, name.value, name.end, RuleHead(ts, i).end);
  }

  lemma {:induction false} LongRuleIs(ts: Tokens, i: nat)
    requires i <= |ts| && LongRule(ts, i).Ok?
    ensures IsRule(ts, i, LongRule(ts, i).value, LongRule(ts, i).end)
  {
    hide RuleHead, Alts, Block, Expect, IsHead, IsAlts, IsBlock, Says;
    var h, r := RuleHead(ts, i).end, LongRule(ts, i);
    var first := Alts(ts, h);
    HeadIs(ts, i);
    AltsIs(ts, h);
    NoAltsAreNone(ts, h, first.value.alts, first.end);
    ExpectSays(ts, first.end, "NewLine");
    BlockIs(ts, first.end + 1);
    LongRhsOf(ts, h, first.value.alts, first.end, Block(ts, first.end + 1).value.alts, r.end);
  }

  lemma {:induction false} LongRhsOf(ts: Tokens, h: nat, a: seq<Alt>, k: nat, more: seq<Alt>, j: nat)
    requires a != [] && more != [] && IsAlts(ts, h, a, k) && Says(ts, k, "NewLine") && IsBlock(ts, k + 1, more, j)
    ensures IsRhs(ts, h, a + more, j)
  {
    hide IsAlts, IsBlock, Says;
    var n := |a|;
    assert (a + more)[..n] == a && (a + more)[n..] == more;
    assert IsAlts(ts, h, (a + more)[..n], k);
  }

  lemma {:induction false} BlockRuleIs(ts: Tokens, i: nat)
    requires i <= |ts| && BlockRule(ts, i).Ok?
    ensures IsRule(ts, i, BlockRule(ts, i).value, BlockRule(ts, i).end)
  {
    hide RuleHead, Alts, Block, Expect, IsHead, IsAlts, IsBlock, Says;
    var h, r := RuleHead(ts, i).end, BlockRule(ts, i);
    HeadIs(ts, i);
    ExpectSays(ts, h, "NewLine");
    BlockIs(ts, h + 1);
    assert IsRhs(ts, h, r.value.rhs.alts, r.end);
  }

  lemma {:induction false} LineRuleIs(ts: Tokens, i: nat)
    requires i <= |ts| && LineRule(ts, i).Ok?
    ensures IsRule(ts, i, LineRule(ts, i).value, LineRule(ts, i).end)
  {
    hide RuleHead, Alts, Block, Expect, IsHead, IsAlts, IsBlock, Says;
    var h, r := RuleHead(ts, i).end, LineRule(ts, i);
    HeadIs(ts, i);
    AltsIs(ts, h);
    ExpectSays(ts, Alts(ts, h).end, "NewLine");
    assert IsRhs(ts, h, r.value.rhs.alts, r.end);
  }

  lemma {:induction false} RulesIs(ts: Tokens, i: nat)
    requires i <= |ts| && Rules(ts, i).Ok?
    ensures IsRules(ts, i, Rules(ts, i).value, Rules(ts, i).end)
    decreases |ts| - i
  {
    hide LongRule, BlockRule, LineRule, IsRule;
    var r := RuleAt(ts, i);
    if LongRule(ts, i).Ok? {
      LongRuleIs(ts, i);
    } else if BlockRule(ts, i).Ok? {
      BlockRuleIs(ts, i);
    } else {
      LineRuleIs(ts, i);
    }
    var more := Rules(ts, r.end);
    if more.Ok? {
      RulesIs(ts, r.end);
      RulesOf(ts, i, r.value, r.end, more.value, more.end);
    } else {
      RulesOf(ts, i, r.value, r.end, [], r.end);
    }
  }

  lemma {:induction false} RulesOf(ts: Tokens, i: nat, r: Rule, k: nat, more: seq<Rule>, j: nat)
    requires IsRule(ts, i, r, k) && (if more == [] then k == j else IsRules(ts, k, more, j))
    ensures IsRules(ts, i, [r] + more, j) && (more == [] ==> [r] + more == [r])
  {
    hide IsRule;
    assert ([r] + more)[1..] == more;
    assert IsRules(ts, k, more, j);
  }

  // Metas and grammars

  lemma {:induction false} MetaIs(ts: Tokens, i: nat)
    requires i <= |ts| && MetaAt(ts, i).Ok?
    ensures IsMeta(ts, i, MetaAt(ts, i).value, MetaAt(ts, i).end)
  {
  }

  lemma {:induction false} MetasIs(ts: Tokens, i: nat)
    requires i <= |ts| && Metas(ts, i).Ok?
    ensures IsMetas(ts, i, Metas(ts, i).value, Metas(ts, i).end)
    decreases |ts| - i
  {
    hide MetaAt, IsMeta;
    var m := MetaAt(ts, i);
    MetaIs(ts, i);
    var more := Metas(ts, m.end);
    if more.Ok? {
      MetasIs(ts, m.end);
      MetasOf(ts, i, m.value, m.end, more.value, more.end);
    } else {
      MetasOf(ts, i, m.value, m.end, [], m.end);
    }
  }

  lemma {:induction false} MetasOf(ts: Tokens, i: nat, m: Meta, k: nat, more: seq<Meta>, j: nat)
    requires IsMeta(ts, i, m, k) && (if more == [] then k == j else IsMetas(ts, k, more, j))
    ensures IsMetas(ts, i, [m] + more, j) && (more == [] ==> [m] + more == [m])
  {
    hide IsMeta;
    assert ([m] + more)[1..] == more;
    assert IsMetas(ts, k, more, j);
  }

  /** A grammar that is read is what the tokens up to the end marker stand for, whatever they are. */
  lemma {:induction false} WhatIsReadIsThere(ts: Tokens, i: nat)
    requires i <= |ts| && Start(ts, i).Ok?
    ensures IsGrammar(ts, i, Start(ts, i).value, Start(ts, i).end - 1) && Says(ts, Start(ts, i).end - 1, "EndMarker")
  {
    hide Rules, Metas, Expect, IsRules, IsMetas, RuleDict, MetaDict;
    var metas, r := Metas(ts, i), GrammarAt(ts, i);
    ExpectSays(ts, r.end, "EndMarker");
    if metas.Ok? && Rules(ts, metas.end).Ok? {
      MetasIs(ts, i);
      RulesIs(ts, metas.end);
      GrammarOf(ts, i, metas.value, metas.end, Rules(ts, metas.end).value, r.end);
    } else {
      RulesIs(ts, i);
      NoMetasIs(ts, i);
      GrammarOf(ts, i, [], i, Rules(ts, i).value, r.end);
    }
  }

  lemma {:induction false} NoMetasIs(ts: Tokens, i: nat)
    ensures IsMetas(ts, i, [], i)
  {
  }

  lemma {:induction false} GrammarOf(ts: Tokens, i: nat, metas: seq<Meta>, k: nat, rules: seq<Rule>, j: nat)
    requires rules != [] && IsMetas(ts, i, metas, k) && IsRules(ts, k, rules, j)
    ensures IsGrammar(ts, i, MkGrammar(rules, metas), j)
  {
    hide IsMetas, IsRules, RuleDict, MetaDict;
  }
}
