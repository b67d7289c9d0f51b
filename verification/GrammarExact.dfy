/**
 The converse of the round trip: a grammar that is read back from its own tokens
 is canonical. The trees are any that have a text, with names and literals at
 their leaves, whatever their groups, options and names are.
 */
module GrammarExact {
  import opened Wrappers
  import opened GrammarTree
  import opened GrammarDescent
  import opened GrammarPrinter
  import opened GrammarBrackets
  import opened GrammarRoundTrip
  import GrammarReading
  import FirstSets

  // Repeat0 and Forced have no text, and that of Repeat1 is not that of its node.
  predicate PrintableItem(x: Item)
    decreases x
  {
    match x
    case NameLeaf(v) => Identifier(v)
    case StringLeaf(v) => Literal(v)
    case Group(r) => PrintableAlts(r.alts)
    case RhsItem(r) => PrintableAlts(r.alts)
    case Opt(n) => PrintableItem(n)
    case Gather(s, n) => PrintableItem(s) && PrintableItem(n)
    case PositiveLookahead(n) => PrintableItem(n)
    case NegativeLookahead(n) => PrintableItem(n)
    case Cut => true
    case _ => false
  }

  predicate PrintableAlts(alts: seq<Alt>)
    decreases alts
  {
    forall a :: a in alts ==> PrintableAlt(a)
  }

  predicate PrintableAlt(a: Alt)
    decreases a
  {
    forall n :: n in a.items ==> PrintableNamedItem(n)
  }

  predicate PrintableNamedItem(n: NamedItem)
    decreases n
  {
    PrintableItem(n.item)
  }

  /** A rule that does not begin, on one line, with the name `NewLine`. */
  predicate PrintableRule(r: Rule) {
    && Identifier(r.name) && PrintableAlts(r.rhs.alts)
    && (OneLine(r) && AltsTokens(r.rhs.alts) != [] ==> AltsTokens(r.rhs.alts)[0].value != "NewLine")
  }

  // Printed tokens

  predicate CleanToken(t: Token) {
    PlainToken(t) && t.value != ":" && t.kind in {Name, String, Op, ErrorMarker}
  }

  predicate Clean(ts: Tokens) {
    forall i :: 0 <= i < |ts| ==> CleanToken(ts[i])
  }

  lemma {:induction false} ConcatClean(a: Tokens, b: Tokens)
    requires Clean(a) && Clean(b)
    ensures Clean(a + b)
  {
  }

  const Marks: set<string> := {"(", ")", "[", "]", "?", ".", "+", "&", "!", "~", "|"}

  lemma {:induction false} MarkClean(s: string)
    requires s in Marks
    ensures Clean([Punct(s)])
  {
  }

  lemma {:induction false} LeafClean(x: Item)
    requires PrintableItem(x) && (x.NameLeaf? || x.StringLeaf?)
    ensures Clean(ItemTokens(x))
  {
    if x.NameLeaf? {
      assert x.value[0] in x.value;
    }
  }

  /** A mark before, after or around clean tokens. */
  lemma {:induction false} MarkedClean(a: string, inner: Tokens, b: string)
    requires Clean(inner) && a in Marks && b in Marks
    ensures Clean([Punct(a)] + inner) && Clean(inner + [Punct(b)]) && Clean([Punct(a)] + inner + [Punct(b)])
  {
    hide Clean;
    MarkClean(a);
    MarkClean(b);
    ConcatClean([Punct(a)], inner);
    ConcatClean(inner, [Punct(b)]);
    ConcatClean([Punct(a)] + inner, [Punct(b)]);
  }

  lemma {:induction false} ItemClean(x: Item)
    requires PrintableItem(x)
    ensures Clean(ItemTokens(x))
    decreases x
  {
    hide Clean;
    match x
    case NameLeaf(_) => LeafClean(x);
    case StringLeaf(_) => LeafClean(x);
    case Group(r) =>
      AltsClean(r.alts);
      MarkedClean("(", AltsTokens(r.alts), ")");
    case RhsItem(r) => AltsClean(r.alts);
    case Opt(n) =>
      ItemClean(n);
      MarkedClean("[", ItemTokens(n), "]");
      MarkedClean("[", ItemTokens(n), "?");
    case Gather(s, n) =>
      ItemClean(s);
      ItemClean(n);
      MarkedClean("(", ItemTokens(s), ".");
      ConcatClean(ItemTokens(s) + [Punct(".")], ItemTokens(n));
      MarkedClean("(", ItemTokens(s) + [Punct(".")] + ItemTokens(n), "+");
    case PositiveLookahead(n) =>
      ItemClean(n);
      MarkedClean("&", ItemTokens(n), ")");
    case NegativeLookahead(n) =>
      ItemClean(n);
      MarkedClean("!", ItemTokens(n), ")");
    case Cut => MarkClean("~");
  }

  lemma {:induction false} AltsClean(alts: seq<Alt>)
    requires PrintableAlts(alts)
    ensures Clean(AltsTokens(alts))
    decreases alts
  {
    if alts != [] {
      AltClean(alts[0]);
      AltsClean(alts[1..]);
    }
  }

  lemma {:induction false} AltClean(a: Alt)
    requires PrintableAlt(a)
    ensures Clean(ItemsTokens(a.items))
    decreases a
  {
    ItemsClean(a.items);
  }

  lemma {:induction false} ItemsClean(items: seq<NamedItem>)
    requires forall n :: n in items ==> PrintableNamedItem(n)
    ensures Clean(ItemsTokens(items))
    decreases items
  {
    if items != [] {
      NamedItemClean(items[0]);
      ItemsClean(items[1..]);
    }
  }

  lemma {:induction false} NamedItemClean(n: NamedItem)
    requires PrintableNamedItem(n)
    ensures Clean(NamedItemTokens(n))
    decreases n
  {
    ItemClean(n.item);
  }

  // A text whose first token is a bracket has a blank.

  lemma {:induction false} NamesAreNoBrackets(x: Item)
    requires PrintableItem(x) && x.NameLeaf?
    ensures ItemTokens(x)[0].value != "["
  {
    assert x.value[0] in x.value;
  }

  lemma {:induction false} BracketedItem(x: Item)
    requires PrintableItem(x) && ItemTokens(x) != [] && ItemTokens(x)[0].value == "["
    ensures ' ' in ItemText(x)
    decreases x
  {
    match x
    case NameLeaf(_) => NamesAreNoBrackets(x);
    case RhsItem(r) => BracketedAlts(r.alts);
    case Opt(n) =>
      var s := ItemText(n);
      if ' ' in s {
        assert ("[" + s + "]")[1..1 + |s|] == s;
      } else if ItemTokens(n) != [] {
        BracketedItem(n);
      }
    case Gather(s, n) =>
      if ItemTokens(s) != [] {
        BracketedItem(s);
      }
    case _ =>
  }

  lemma {:induction false} BracketedAlts(alts: seq<Alt>)
    requires PrintableAlts(alts) && AltsTokens(alts) != [] && AltsTokens(alts)[0].value == "["
    ensures ' ' in AltsText(alts)
    decreases alts
  {
    if |alts| == 1 {
      BracketedAlt(alts[0]);
    } else {
      assert " | "[0] == ' ' && ' ' in " | ";
    }
  }

  lemma {:induction false} BracketedAlt(a: Alt)
    requires PrintableAlt(a) && ItemsTokens(a.items) != [] && ItemsTokens(a.items)[0].value == "["
    ensures ' ' in AltText(a)
    decreases a
  {
    var items := a.items;
    var text, rest := NamedItemText(items[0]), Core(items[1..]);
    assert Core(items) == " " + text + rest && AltText(a) == text + rest;
    if |items| == 1 {
      assert items[1..] == [];
      assert ItemsTokens(items) == NamedItemTokens(items[0]) + [];
      BracketedNamedItem(items[0]);
    } else {
      assert rest[0] == ' ';
    }
  }

  lemma {:induction false} BracketedNamedItem(n: NamedItem)
    requires PrintableNamedItem(n) && NamedItemTokens(n) != [] && NamedItemTokens(n)[0].value == "["
    ensures ' ' in NamedItemText(n)
    decreases n
  {
    BracketedItem(n.item);
  }

  // What is read where the same tree is printed is canonical, and ends where the print does.

  lemma {:induction false} AtomSync(ts: Tokens, i: nat, x: Item, j: nat)
    requires Plain(ts) && i <= |ts| && AtomAt(ts, i) == Ok(x, j)
    requires PrintableItem(x) && At(ts, i, ItemTokens(x))
    ensures IsAtom(x) && Canonical(x) && j == i + |ItemTokens(x)|
    decreases x, 0
  {
    hide Alts, Plain, At, ItemTokens, Literal, Identifier;
    AtomIs(ts, i, x, j);
    if x.Group? {
      var inner := AltsTokens(x.rhs.alts);
      GroupTokens(x.rhs);
      AtHead(ts, i, Punct("("), inner + [Punct(")")]);
      AtSplit(ts, i + 1, inner, [Punct(")")]);
      AltsSync(ts, i + 1, x.rhs.alts, j - 1);
    } else {
      LeafTokens(x);
      AtHead(ts, i, ItemTokens(x)[0], []);
    }
  }

  /** What `atom` gives. */
  lemma {:induction false} AtomIs(ts: Tokens, i: nat, x: Item, j: nat)
    requires i <= |ts| && AtomAt(ts, i) == Ok(x, j)
    ensures i < j <= |ts|
    ensures x.Group? ==> i + 1 < j && Alts(ts, i + 1) == Ok(x.rhs, j - 1)
    ensures x.NameLeaf? ==> ts[i] == Token(Name, x.value) && j == i + 1
    ensures x.StringLeaf? ==> ts[i] == Token(String, x.value) && j == i + 1
    ensures IsAtom(x)
  {
    hide Alts;
  }

  lemma {:induction false} GroupTokens(r: Rhs)
    ensures ItemTokens(Group(r)) == [Punct("(")] + (AltsTokens(r.alts) + [Punct(")")])
  {
  }

  lemma {:induction false} LeafTokens(x: Item)
    requires x.NameLeaf? || x.StringLeaf?
    ensures ItemTokens(x) == [ItemTokens(x)[0]] + []
    ensures x == NameLeaf("EndMarker") ==> ItemTokens(x)[0].kind != Name
  {
  }

  lemma {:induction false} ItemSync(ts: Tokens, i: nat, x: Item, j: nat)
    requires Plain(ts) && i <= |ts| && ItemAt(ts, i) == Ok(x, j)
    requires PrintableItem(x) && At(ts, i, ItemTokens(x))
    ensures Canonical(x) && j == i + |ItemTokens(x)|
    decreases x, 2
  {
    hide ItemAt, AtomAt, Alts, Plain, At, ItemTokens, Canonical;
    ItemIs(ts, i, x, j);
    match x
    case Opt(n) =>
      if n.RhsItem? {
        BracketSync(ts, i, n.rhs, j);
      } else {
        OptionSync(ts, i, n, j);
      }
    case Gather(s, n) => GatherSync(ts, i, s, n, j);
    case NameLeaf(_) | StringLeaf(_) | Group(_) => AtomSync(ts, i, x, j);
  }

  /** What `item` gives, among the trees that have a text. */
  lemma {:induction false} ItemIs(ts: Tokens, i: nat, x: Item, j: nat)
    requires Plain(ts) && i <= |ts| && ItemAt(ts, i) == Ok(x, j) && PrintableItem(x)
    ensures IsAtom(x) || x.Opt? || x.Gather?
    ensures IsAtom(x) ==> AtomAt(ts, i) == Ok(x, j)
    ensures x.Opt? && x.node.RhsItem? ==>
              i + 1 < j <= |ts| && ts[i].value == "[" && Alts(ts, i + 1) == Ok(x.node.rhs, j - 1)
    ensures x.Opt? && !x.node.RhsItem? ==>
              i < j <= |ts| && i < |ts| && ts[i].value != "[" && AtomAt(ts, i) == Ok(x.node, j - 1)
    ensures x.Gather? ==>
              && AtomAt(ts, i).Ok? && AtomAt(ts, i).value == x.separator
              && AtomAt(ts, i).end < |ts| && AtomAt(ts, AtomAt(ts, i).end + 1) == Ok(x.node, j - 1)
  {
    hide AtomAt, Alts, Plain, Identifier, Literal, PrintableAlts;
    var atom := AtomAt(ts, i);
    if atom.Ok? {
      AtomIs(ts, i, atom.value, atom.end);
    }
  }

  lemma {:induction false} OptTokens(n: Item)
    ensures ItemTokens(Opt(n)) ==
            if ' ' in ItemText(n) then [Punct("[")] + (ItemTokens(n) + [Punct("]")]) else ItemTokens(n) + [Punct("?")]
    ensures n.RhsItem? ==> ItemText(n) == AltsText(n.rhs.alts) && ItemTokens(n) == AltsTokens(n.rhs.alts)
  {
  }

  lemma {:induction false} BracketSync(ts: Tokens, i: nat, r: Rhs, j: nat)
    requires Plain(ts) && i + 1 < j <= |ts| && Alts(ts, i + 1) == Ok(r, j - 1)
    requires ts[i].value == "[" && PrintableAlts(r.alts) && At(ts, i, ItemTokens(Opt(RhsItem(r))))
    ensures Canonical(Opt(RhsItem(r))) && j == i + |ItemTokens(Opt(RhsItem(r)))|
    decreases r, 1
  {
    hide Alts, Plain, At, ItemTokens, AltsTokens, AltsText, ItemText, PrintableAlts;
    var inner := AltsTokens(r.alts);
    OptTokens(RhsItem(r));
    if ' ' in AltsText(r.alts) {
      AtHead(ts, i, Punct("["), inner + [Punct("]")]);
      AtSplit(ts, i + 1, inner, [Punct("]")]);
      AltsSync(ts, i + 1, r.alts, j - 1);
    } else {
      AtFirst(ts, i, inner + [Punct("?")]);
      if inner != [] {
        BracketedAlts(r.alts);
      }
    }
  }

  lemma {:induction false} OptionSync(ts: Tokens, i: nat, n: Item, j: nat)
    requires Plain(ts) && i < j <= |ts| && i < |ts| && ts[i].value != "[" && AtomAt(ts, i) == Ok(n, j - 1)
    requires PrintableItem(n) && At(ts, i, ItemTokens(Opt(n)))
    ensures Canonical(Opt(n)) && j == i + |ItemTokens(Opt(n))|
    decreases n, 1
  {
    hide AtomAt, Plain, At, ItemTokens, ItemText, PrintableItem;
    OptTokens(n);
    if ' ' in ItemText(n) {
      AtFirst(ts, i, [Punct("[")] + (ItemTokens(n) + [Punct("]")]));
    } else {
      AtSplit(ts, i, ItemTokens(n), [Punct("?")]);
      AtomSync(ts, i, n, j - 1);
    }
  }

  lemma {:induction false} GatherSync(ts: Tokens, i: nat, s: Item, n: Item, j: nat)
    requires Plain(ts) && i <= |ts| && j > 0 && AtomAt(ts, i).Ok? && AtomAt(ts, i).value == s
    requires AtomAt(ts, i).end < |ts| && AtomAt(ts, AtomAt(ts, i).end + 1) == Ok(n, j - 1)
    requires PrintableItem(s) && PrintableItem(n) && At(ts, i, ItemTokens(Gather(s, n)))
    ensures Canonical(Gather(s, n)) && j == i + |ItemTokens(Gather(s, n))|
    decreases Gather(s, n), 1
  {
    hide AtomAt, Plain, At, ItemTokens, PrintableItem;
    var a, b := ItemTokens(s), ItemTokens(n);
    GatherTokens(s, n);
    AtBetween(ts, i, a, Punct("."), b, Punct("+"));
    AtomSync(ts, i, s, AtomAt(ts, i).end);
    AtomSync(ts, i + |a| + 1, n, j - 1);
  }

  lemma {:induction false} NamedItemSync(ts: Tokens, i: nat, n: NamedItem, j: nat)
    requires Plain(ts) && i <= |ts| && NamedItemAt(ts, i) == Ok(n, j)
    requires PrintableNamedItem(n) && At(ts, i, NamedItemTokens(n))
    ensures CanonicalNamedItem(n) && j == i + |NamedItemTokens(n)|
    decreases n, 0
  {
    hide Plain, At, ItemTokens, Canonical, TypedBinding, PlainBinding, ItemAt, LookaheadAt, ForcedAtom;
    NothingExtra(ts, i);
    if ItemAt(ts, i).Ok? {
      ItemSync(ts, i, n.item, j);
    } else {
      ForcedIs(ts, i);
      LookaheadSync(ts, i, n.item, j);
    }
  }

  lemma {:induction false} ForcedIs(ts: Tokens, i: nat)
    requires i <= |ts|
    ensures ForcedAtom(ts, i).Ok? ==> ForcedAtom(ts, i).value.Forced?
  {
    hide AtomAt;
  }

  lemma {:induction false} LookaheadSync(ts: Tokens, i: nat, x: Item, j: nat)
    requires Plain(ts) && i <= |ts| && LookaheadAt(ts, i) == Ok(x, j)
    requires PrintableItem(x) && At(ts, i, ItemTokens(x))
    ensures Canonical(x) && j == i + |ItemTokens(x)|
    decreases x, 2
  {
    hide Plain, At, ItemTokens, AtomAt, LookaheadAt;
    LookaheadIs(ts, i, x, j);
    LookaheadTokens(x);
    if x.PositiveLookahead? || x.NegativeLookahead? {
      AtHead(ts, i, if x.PositiveLookahead? then Punct("&") else Punct("!"), ItemTokens(x.node));
      AtomSync(ts, i + 1, x.node, j);
    }
  }

  lemma {:induction false} LookaheadIs(ts: Tokens, i: nat, x: Item, j: nat)
    requires i <= |ts| && LookaheadAt(ts, i) == Ok(x, j)
    ensures i < |ts| && (x.PositiveLookahead? || x.NegativeLookahead? || x.Cut?)
    ensures x.PositiveLookahead? || x.NegativeLookahead? ==> AtomAt(ts, i + 1) == Ok(x.node, j)
    ensures x.Cut? ==> j == i + 1
  {
    hide AtomAt;
  }

  lemma {:induction false} ItemsSync(ts: Tokens, i: nat, items: seq<NamedItem>, e: nat)
    requires Plain(ts) && i <= |ts| && Items(ts, i) == Ok(items, e)
    requires (forall n :: n in items ==> PrintableNamedItem(n)) && At(ts, i, ItemsTokens(items))
    ensures items != [] && forall n :: n in items ==> CanonicalNamedItem(n)
    ensures e == i + |ItemsTokens(items)|
    decreases items, 0
  {
    hide Plain, At, NamedItemAt, PrintableNamedItem, CanonicalNamedItem, NamedItemTokens;
    ItemsAre(ts, i, items, e);
    ItemsTokensOf(items);
    var first, rest := NamedItemTokens(items[0]), ItemsTokens(items[1..]);
    AtSplit(ts, i, first, rest);
    var j := NamedItemAt(ts, i).end;
    NamedItemSync(ts, i, items[0], j);
    assert items == [items[0]] + items[1..];
    if |items| > 1 {
      ItemsSync(ts, j, items[1..], e);
    } else {
      assert items[1..] == [];
    }
  }

  lemma {:induction false} ItemsAre(ts: Tokens, i: nat, items: seq<NamedItem>, e: nat)
    requires i <= |ts| && Items(ts, i) == Ok(items, e)
    ensures items != [] && NamedItemAt(ts, i).Ok? && NamedItemAt(ts, i).value == items[0]
    ensures var j := NamedItemAt(ts, i).end;
            j <= |ts| && (if |items| == 1 then e == j else Items(ts, j) == Ok(items[1..], e))
  {
    hide NamedItemAt;
    var j := NamedItemAt(ts, i).end;
    if Items(ts, j).Ok? {
      var more := Items(ts, j).value;
      assert ([items[0]] + more)[1..] == more;
    }
  }

  lemma {:induction false} AltSync(ts: Tokens, i: nat, a: Alt, e: nat)
    requires Plain(ts) && i <= |ts| && AltAt(ts, i) == Ok(a, e)
    requires PrintableAlt(a) && At(ts, i, ItemsTokens(a.items))
    ensures CanonicalAlt(a) && e == i + |ItemsTokens(a.items)|
    decreases a, 0
  {
    hide Plain, At, Items, AltAt, PrintableNamedItem, Canonical, ItemsTokens;
    AltIs(ts, i, a, e);
    var last := |a.items| - 1;
    var body := Items(ts, i).value;
    if a.items == body {
      ItemsSync(ts, i, body, e);
      EndIsNotCanonical();
      assert a.items[last] in body;
    } else {
      assert a.items[..last] == body;
      ItemsTokensConcat(body, [EndItem]);
      EndTokens();
      AtSplit(ts, i, ItemsTokens(body), [Dollar]);
      ItemsSync(ts, i, body, e - 1);
      assert forall k :: 0 <= k < last ==> a.items[k] in body;
    }
  }

  lemma {:induction false} EndIsNotCanonical()
    ensures !CanonicalNamedItem(EndItem)
  {
  }

  lemma {:induction false} EndTokens()
    ensures ItemsTokens([EndItem]) == [Dollar]
  {
  }

  lemma {:induction false} AltIs(ts: Tokens, i: nat, a: Alt, e: nat)
    requires Plain(ts) && i <= |ts| && AltAt(ts, i) == Ok(a, e)
    ensures Items(ts, i).Ok? && a.action == None && a.items != []
    ensures || (a.items == Items(ts, i).value && e == Items(ts, i).end)
            || (a.items == Items(ts, i).value + [EndItem] && e == Items(ts, i).end + 1)
  {
    hide Items, Action, Plain;
    var items := Items(ts, i);
    if items.Ok? {
      NothingExtra(ts, items.end);
      if items.end < |ts| {
        NothingExtra(ts, items.end + 1);
      }
    }
  }

  lemma {:induction false} AltsSync(ts: Tokens, i: nat, alts: seq<Alt>, e: nat)
    requires Plain(ts) && i <= |ts| && Alts(ts, i) == Ok(Rhs(alts), e)
    requires PrintableAlts(alts) && At(ts, i, AltsTokens(alts))
    ensures alts != [] && forall a :: a in alts ==> CanonicalAlt(a)
    ensures e == i + |AltsTokens(alts)|
    decreases alts, 0
  {
    hide Plain, At, AltAt, Alts, PrintableAlt, CanonicalAlt, ItemsTokens, AltsTokens;
    AltsAre(ts, i, alts, e);
    AltsTokensSplit(alts);
    var j := AltAt(ts, i).end;
    assert alts == [alts[0]] + alts[1..];
    if |alts| == 1 {
      AltSync(ts, i, alts[0], j);
    } else {
      var first, rest := ItemsTokens(alts[0].items), AltsTokens(alts[1..]);
      AtSplit(ts, i, first, [Punct("|")] + rest);
      AtHead(ts, i + |first|, Punct("|"), rest);
      AltSync(ts, i, alts[0], j);
      AltsSync(ts, j + 1, alts[1..], e);
    }
  }

  lemma {:induction false} AltsAre(ts: Tokens, i: nat, alts: seq<Alt>, e: nat)
    requires i <= |ts| && Alts(ts, i) == Ok(Rhs(alts), e)
    ensures alts != [] && AltAt(ts, i).Ok? && AltAt(ts, i).value == alts[0]
    ensures var j := AltAt(ts, i).end;
            if |alts| == 1 then e == j
            else j < |ts| && Alts(ts, j + 1) == Ok(Rhs(alts[1..]), e)
  {
    hide AltAt;
    AltsAreNotEmpty(ts, i);
    var j := AltAt(ts, i).end;
    if j < |ts| && Alts(ts, j + 1).Ok? {
      AltsAreNotEmpty(ts, j + 1);
      var more := Alts(ts, j + 1).value.alts;
      assert ([alts[0]] + more)[1..] == more;
    }
  }

  lemma {:induction false} AltsAreNotEmpty(ts: Tokens, i: nat)
    requires i <= |ts|
    ensures Alts(ts, i).Ok? ==> Alts(ts, i).value.alts != []
  {
    hide AltAt;
  }

  // Rules

  lemma {:induction false} AltsTokensConcat(a: seq<Alt>, b: seq<Alt>)
    requires a != [] && b != []
    ensures AltsTokens(a + b) == AltsTokens(a) + ([Punct("|")] + AltsTokens(b))
  {
    hide ItemsTokens, AltsTokens;
    AltsTokensSplit(a);
    AltsTokensSplit(a + b);
    assert (a + b)[0] == a[0];
    if |a| == 1 {
      assert (a + b)[1..] == b;
    } else {
      assert (a + b)[1..] == a[1..] + b;
      AltsTokensConcat(a[1..], b);
    }
  }

  lemma {:induction false} LineIs(ts: Tokens, i: nat, line: Rhs, k: nat)
    requires i <= |ts| && AltsLine(ts, i) == Ok(line, k)
    ensures i + 1 < k <= |ts| && ts[i].value == "|" && Alts(ts, i + 1) == Ok(line, k - 1)
  {
    hide Alts;
  }

  lemma {:induction false} MoreAltsAre(ts: Tokens, i: nat, alts: seq<Alt>, e: nat)
    requires i <= |ts| && MoreAlts(ts, i) == Ok(Rhs(alts), e)
    ensures AltsLine(ts, i).Ok?
    ensures var (line, k) := (AltsLine(ts, i).value, AltsLine(ts, i).end);
            && line.alts != [] && line.alts <= alts && k <= |ts|
            && (if alts == line.alts then e == k else MoreAlts(ts, k) == Ok(Rhs(alts[|line.alts|..]), e))
  {
    hide Alts, AltsLine;
    var line := AltsLine(ts, i);
    LineIs(ts, i, line.value, line.end);
    AltsAreNotEmpty(ts, i + 1);
    var more := MoreAlts(ts, line.end);
    if more.Ok? {
      MoreAltsAreNotEmpty(ts, line.end);
      assert (line.value.alts + more.value.alts)[|line.value.alts|..] == more.value.alts;
    }
  }

  lemma {:induction false} MoreAltsAreNotEmpty(ts: Tokens, i: nat)
    requires i <= |ts|
    ensures MoreAlts(ts, i).Ok? ==> MoreAlts(ts, i).value.alts != []
  {
    hide Alts;
    if AltsLine(ts, i).Ok? {
      LineIs(ts, i, AltsLine(ts, i).value, AltsLine(ts, i).end);
      AltsAreNotEmpty(ts, i + 1);
    }
  }

  /** Each line of a block holds one alternative. */
  lemma {:induction false} BlockSync(ts: Tokens, i: nat, alts: seq<Alt>, e: nat)
    requires Plain(ts) && i <= |ts| && MoreAlts(ts, i) == Ok(Rhs(alts), e)
    requires PrintableAlts(alts) && At(ts, i, BlockTokens(alts))
    ensures alts != [] && forall a :: a in alts ==> CanonicalAlt(a)
    ensures e == i + |BlockTokens(alts)|
    decreases |alts|
  {
    hide Plain, At, AltAt, Alts, MoreAlts, AltsLine, PrintableAlt, CanonicalAlt, ItemsTokens, AltsTokens;
    MoreAltsAre(ts, i, alts, e);
    var (line, k) := (AltsLine(ts, i).value.alts, AltsLine(ts, i).end);
    LineIs(ts, i, AltsLine(ts, i).value, k);
    AltsAre(ts, i + 1, line, k - 1);
    assert alts[0] == line[0];
    var first, rest := ItemsTokens(alts[0].items), BlockTokens(alts[1..]);
    AtBetween0(ts, i, Punct("|"), first, LineEnd, rest);
    var j := AltAt(ts, i + 1).end;
    AltSync(ts, i + 1, alts[0], j);
    assert ts[j] == LineEnd;
    if |line| > 1 {
      BarBetween(ts, i + 1, line, k - 1);
    }
    assert line == alts[..1] && k == j + 1;
    assert alts == [alts[0]] + alts[1..];
    if |alts| > 1 {
      BlockSync(ts, k, alts[1..], e);
    } else {
      assert alts[1..] == [];
    }
  }

  lemma {:induction false} BarBetween(ts: Tokens, i: nat, alts: seq<Alt>, e: nat)
    requires i <= |ts| && Alts(ts, i) == Ok(Rhs(alts), e) && |alts| > 1
    ensures AltAt(ts, i).Ok? && AltAt(ts, i).end < |ts| && ts[AltAt(ts, i).end].value == "|"
  {
    hide AltAt;
  }

  /** What a rule is read from, once its head is. */
  predicate RuleParts(ts: Tokens, h: nat, r: Rule, j: nat) {
    h <= |ts| &&
    (|| (&& Alts(ts, h).Ok? && Alts(ts, h).end < |ts| && Expect(ts, Alts(ts, h).end, "NewLine").Ok?
         && Block(ts, Alts(ts, h).end + 1).Ok?
         && r.rhs.alts == Alts(ts, h).value.alts + Block(ts, Alts(ts, h).end + 1).value.alts)
     || (Expect(ts, h, "NewLine").Ok? && Block(ts, h + 1) == Ok(r.rhs, j))
     || (&& Alts(ts, h).Ok? && r.rhs == Alts(ts, h).value && j == Alts(ts, h).end + 1
         && Expect(ts, j - 1, "NewLine").Ok?))
  }

  lemma {:induction false} RuleIs(ts: Tokens, i: nat, name: string, h: nat, r: Rule, j: nat)
    requires i <= |ts| && RuleHead(ts, i) == Ok(RuleName(name, None), h) && RuleAt(ts, i) == Ok(r, j)
    ensures r.name == name && r.annotation == None && RuleParts(ts, h, r, j)
  {
    hide RuleHead, Alts, Block, Expect;
  }

  lemma {:induction false} BlockIs(ts: Tokens, i: nat)
    requires i <= |ts| && Block(ts, i).Ok?
    ensures i + 1 < Block(ts, i).end <= |ts| && Expect(ts, i, "Indent").Ok?
    ensures MoreAlts(ts, i + 1) == Ok(Block(ts, i).value, Block(ts, i).end - 1)
    ensures Block(ts, i).value.alts != [] && ts[i + 1].value == "|"
  {
    hide Alts;
    MoreAltsAreNotEmpty(ts, i + 1);
  }

  lemma {:induction false} LineRuleSync(ts: Tokens, i: nat, r: Rule, j: nat)
    requires Plain(ts) && i <= |ts| && RuleAt(ts, i) == Ok(r, j) && PrintableRule(r) && OneLine(r)
    requires At(ts, i, RuleTokens(r)) && i + |RuleTokens(r)| < |ts| && AfterRule(ts, i + |RuleTokens(r)|)
    ensures CanonicalRule(r) && j == i + |RuleTokens(r)|
  {
    hide Plain, At, Alts, RuleAt, RuleHead, RuleTokens, OneLine, AltsTokens, Block, PrintableAlts, Expect, AfterRule;
    hide CanonicalAlt;
    var h, alts := i + 2, r.rhs.alts;
    LineRuleTokens(r);
    AtLineRule(ts, i, r.name, AltsTokens(alts));
    HeadBack(ts, i, r.name);
    RuleIs(ts, i, r.name, h, r, j);
    if Expect(ts, h, "NewLine").Ok? && Block(ts, h + 1).Ok? {
      AltsClean(alts);
      NoWordFirst(ts, h, AltsTokens(alts));
    }
    var first := Alts(ts, h);
    if first.Ok? && first.end < |ts| && Block(ts, first.end + 1).Ok? {
      NoSecondPart(ts, h, r, first.value.alts, first.end);
    }
    AltsSync(ts, h, alts, j - 1);
  }

  /** The alternatives of a line do not begin like a block. */
  lemma {:induction false} NoWordFirst(ts: Tokens, h: nat, tokens: Tokens)
    requires Clean(tokens) && At(ts, h, tokens) && h + |tokens| + 1 < |ts| && ts[h + |tokens|] == LineEnd
    requires tokens != [] ==> tokens[0].value != "NewLine"
    requires AfterRule(ts, h + |tokens| + 1) && Block(ts, h + 1).Ok?
    ensures Expect(ts, h, "NewLine").Fail?
  {
    hide Block, PlainToken;
    BlockIs(ts, h + 1);
    if tokens != [] {
      AtFirst(ts, h, tokens);
      assert CleanToken(tokens[0]);
    }
  }

  /** Nor are more of them read from lines below. */
  lemma {:induction false} NoSecondPart(ts: Tokens, h: nat, r: Rule, first: seq<Alt>, k: nat)
    requires Plain(ts) && h <= |ts| && Alts(ts, h) == Ok(Rhs(first), k) && k < |ts| && Block(ts, k + 1).Ok?
    requires PrintableAlts(r.rhs.alts) && At(ts, h, AltsTokens(r.rhs.alts))
    ensures r.rhs.alts == first + Block(ts, k + 1).value.alts ==> Expect(ts, k, "NewLine").Fail?
  {
    hide Plain, At, Alts, AltsTokens, Block, Expect, CanonicalAlt, PrintableAlt;
    var more := Block(ts, k + 1).value.alts;
    if r.rhs.alts == first + more {
      AltsAreNotEmpty(ts, h);
      BlockIs(ts, k + 1);
      AltsTokensConcat(first, more);
      AtSplit(ts, h, AltsTokens(first), [Punct("|")] + AltsTokens(more));
      AtHead(ts, h + |AltsTokens(first)|, Punct("|"), AltsTokens(more));
      AltsSync(ts, h, first, k);
      NoLayoutBar(ts, k);
    }
  }

  lemma {:induction false} NoLayoutBar(ts: Tokens, k: nat)
    requires k < |ts| && ts[k] == Punct("|")
    ensures Expect(ts, k, "NewLine").Fail?
  {
  }

  lemma {:induction false} BlockRuleSync(ts: Tokens, i: nat, r: Rule, j: nat)
    requires Plain(ts) && i <= |ts| && RuleAt(ts, i) == Ok(r, j) && PrintableRule(r) && !OneLine(r)
    requires At(ts, i, RuleTokens(r))
    ensures CanonicalRule(r) && j == i + |RuleTokens(r)|
  {
    hide Plain, At, Alts, RuleAt, RuleHead, RuleTokens, OneLine, BlockTokens, Block, PrintableAlts, Expect, MoreAlts;
    hide CanonicalAlt;
    var block := BlockTokens(r.rhs.alts);
    BlockRuleTokens(r);
    AtBlockRule(ts, i, r.name, block);
    HeadBack(ts, i, r.name);
    RuleIs(ts, i, r.name, i + 2, r, j);
    GrammarReading.NoItemHere(ts, i + 2);
    BlockIs(ts, i + 3);
    BlockSync(ts, i + 4, r.rhs.alts, j - 1);
  }

  /** The end marker, or the head of the next printed rule. */
  lemma {:induction false} NextPrinted(ts: Tokens, j: nat, rest: seq<Rule>)
    requires RulesThenEnd(ts, j, rest, Token(EndMarker, "")) && forall r :: r in rest ==> PrintableRule(r)
    ensures j < |ts| && AfterRule(ts, j)
  {
    hide RuleTokens, RulesTokens, Identifier, PrintableAlts, OneLine, AltsTokens;
    var last := Token(EndMarker, "");
    NoRulesTokens();
    if rest == [] {
      assert [] + [last] == [last] + [];
      AtHead(ts, j, last, []);
    } else {
      var r := rest[0];
      assert PrintableRule(r);
      HeadTokens(r);
      var more := RuleTokens(r)[2..] + RulesTokens(rest[1..]) + [last];
      FirstOfRules(rest);
      assert RulesTokens(rest) + [last] == [Token(Name, r.name)] + ([Punct(":")] + more);
      AtHead(ts, j, Token(Name, r.name), [Punct(":")] + more);
      AtHead(ts, j + 1, Punct(":"), more);
    }
  }

  lemma {:induction false} HeadTokens(r: Rule)
    ensures |RuleTokens(r)| >= 2 && RuleTokens(r) == [Token(Name, r.name), Punct(":")] + RuleTokens(r)[2..]
  {
    hide AltsTokens, BlockTokens, OneLine;
  }

  lemma {:induction false} RulesAre(ts: Tokens, i: nat, rules: seq<Rule>, e: nat)
    requires i <= |ts| && Rules(ts, i) == Ok(rules, e)
    ensures rules != [] && RuleAt(ts, i).Ok? && RuleAt(ts, i).value == rules[0]
    ensures var j := RuleAt(ts, i).end;
            j <= |ts| && (if |rules| == 1 then e == j else Rules(ts, j) == Ok(rules[1..], e))
  {
    hide RuleAt;
    var j := RuleAt(ts, i).end;
    if Rules(ts, j).Ok? {
      var more := Rules(ts, j).value;
      assert ([rules[0]] + more)[1..] == more;
    }
  }

  lemma {:induction false} RulesSync(ts: Tokens, i: nat, rules: seq<Rule>, e: nat)
    requires Plain(ts) && i <= |ts| && Rules(ts, i) == Ok(rules, e) && forall r :: r in rules ==> PrintableRule(r)
    requires RulesThenEnd(ts, i, rules, Token(EndMarker, ""))
    ensures rules != [] && forall r :: r in rules ==> CanonicalRule(r)
    decreases |rules|
  {
    hide Plain, At, RuleAt, Rules, RuleTokens, CanonicalRule, PrintableRule, AfterRule;
    RulesAre(ts, i, rules, e);
    var r, rest := rules[0], rules[1..];
    var last := [Token(EndMarker, "")];
    assert rules == [r] + rest;
    assert RulesTokens(rules) + last == RuleTokens(r) + (RulesTokens(rest) + last);
    AtSplit(ts, i, RuleTokens(r), RulesTokens(rest) + last);
    var j := i + |RuleTokens(r)|;
    NextPrinted(ts, j, rest);
    if OneLine(r) {
      LineRuleSync(ts, i, r, RuleAt(ts, i).end);
    } else {
      BlockRuleSync(ts, i, r, RuleAt(ts, i).end);
    }
    if rest != [] {
      RulesSync(ts, j, rest, e);
    }
  }

  // The rules that are read are as many as the colons

  function Colons(ts: Tokens): nat {
    if ts == [] then 0 else (if ts[0].value == ":" then 1 else 0) + Colons(ts[1..])
  }

  lemma {:induction false} ColonsConcat(a: Tokens, b: Tokens)
    ensures Colons(a + b) == Colons(a) + Colons(b)
  {
    if a == [] {
      assert a + b == b;
    } else {
      ColonsConcat(a[1..], b);
      assert (a + b)[1..] == a[1..] + b;
    }
  }

  lemma {:induction false} CleanHasNoColons(ts: Tokens)
    requires Clean(ts)
    ensures Colons(ts) == 0
  {
    if ts != [] {
      assert CleanToken(ts[0]);
      CleanHasNoColons(ts[1..]);
    }
  }

  lemma {:induction false} ColonsOfOne(t: Token)
    ensures Colons([t]) == if t.value == ":" then 1 else 0
  {
    assert [t][1..] == [];
  }

  lemma {:induction false} BlockHasNoColons(alts: seq<Alt>)
    requires PrintableAlts(alts)
    ensures Colons(BlockTokens(alts)) == 0 && Plain(BlockTokens(alts))
  {
    hide Colons, ItemsTokens, PrintableAlt;
    if alts == [] {
      CleanHasNoColons([]);
    } else {
      var line := [Punct("|")] + ItemsTokens(alts[0].items) + [LineEnd];
      assert PrintableAlt(alts[0]);
      AltClean(alts[0]);
      CleanHasNoColons(ItemsTokens(alts[0].items));
      ColonsAround(Punct("|"), ItemsTokens(alts[0].items), LineEnd);
      BlockHasNoColons(alts[1..]);
      assert BlockTokens(alts) == line + BlockTokens(alts[1..]);
      ColonsConcat(line, BlockTokens(alts[1..]));
    }
  }

  lemma {:induction false} ColonsAround(a: Token, ts: Tokens, b: Token)
    ensures Colons([a] + ts + [b]) == Colons([a]) + Colons(ts) + Colons([b])
    ensures Colons([a]) == (if a.value == ":" then 1 else 0) && Colons([b]) == (if b.value == ":" then 1 else 0)
  {
    ColonsConcat([a] + ts, [b]);
    ColonsConcat([a], ts);
    ColonsOfOne(a);
    ColonsOfOne(b);
  }

  lemma {:induction false} OneColonEach(r: Rule)
    requires PrintableRule(r)
    ensures Colons(RuleTokens(r)) == 1 && Plain(RuleTokens(r))
  {
    hide Colons, AltsTokens, BlockTokens, OneLine, PrintableAlts;
    var name := Token(Name, r.name);
    assert r.name[0] in r.name;
    ColonsAround(name, [], Punct(":"));
    CleanHasNoColons([]);
    assert [name] + [] + [Punct(":")] == [name, Punct(":")];
    var head := [name, Punct(":")];
    if OneLine(r) {
      AltsClean(r.rhs.alts);
      CleanHasNoColons(AltsTokens(r.rhs.alts));
      ColonsConcat(head + AltsTokens(r.rhs.alts), [LineEnd]);
      ColonsConcat(head, AltsTokens(r.rhs.alts));
      ColonsOfOne(LineEnd);
    } else {
      var block, start := BlockTokens(r.rhs.alts), [LineEnd, Token(Indent, "    ")];
      BlockHasNoColons(r.rhs.alts);
      ColonsConcat(head + start + block, [Token(Dedent, "")]);
      ColonsConcat(head + start, block);
      ColonsConcat(head, start);
      assert start == [LineEnd] + [] + [Token(Indent, "    ")];
      ColonsAround(LineEnd, [], Token(Indent, "    "));
      ColonsOfOne(Token(Dedent, ""));
      assert head + [LineEnd, Token(Indent, "    ")] == head + start;
    }
  }

  lemma {:induction false} ColonsOfRules(rules: seq<Rule>)
    requires forall r :: r in rules ==> PrintableRule(r)
    ensures Colons(RulesTokens(rules)) == |rules| && Plain(RulesTokens(rules))
  {
    hide Colons, RuleTokens, PrintableRule;
    if rules == [] {
      NoRulesTokens();
      CleanHasNoColons([]);
    } else {
      FirstOfRules(rules);
      OneColonEach(rules[0]);
      ColonsOfRules(rules[1..]);
      ColonsConcat(RuleTokens(rules[0]), RulesTokens(rules[1..]));
    }
  }

  lemma {:induction false} HeadHasColon(ts: Tokens, i: nat)
    requires i <= |ts|
    ensures RuleAt(ts, i).Ok? ==> RuleHead(ts, i).Ok? && i < RuleHead(ts, i).end < RuleAt(ts, i).end <= |ts|
    ensures RuleHead(ts, i).Ok? ==> ts[RuleHead(ts, i).end - 1].value == ":"
  {
    hide RuleNameAt, MemoFlag, Alts, MoreAlts;
  }

  lemma {:induction false} FewerRulesThanColons(ts: Tokens, i: nat, rules: seq<Rule>, e: nat)
    requires i <= |ts| && Rules(ts, i) == Ok(rules, e)
    ensures i <= e <= |ts| && |rules| <= Colons(ts[i..e])
    decreases |rules|
  {
    hide RuleAt, Rules, RuleHead, Colons;
    RulesAre(ts, i, rules, e);
    HeadHasColon(ts, i);
    var h, j := RuleHead(ts, i).end, RuleAt(ts, i).end;
    assert ts[i..j] == ts[i..h - 1] + ([ts[h - 1]] + ts[h..j]);
    ColonsConcat(ts[i..h - 1], [ts[h - 1]] + ts[h..j]);
    ColonsConcat([ts[h - 1]], ts[h..j]);
    ColonsOfOne(ts[h - 1]);
    if |rules| > 1 {
      FewerRulesThanColons(ts, j, rules[1..], e);
      assert ts[i..e] == ts[i..j] + ts[j..e];
      ColonsConcat(ts[i..j], ts[j..e]);
    }
  }

  lemma {:induction false} PutLength(m: Dict<Rule>, key: string, v: Rule)
    ensures |Put(m, key, v)| == |m| || Put(m, key, v) == m + [(key, v)]
  {
    if m != [] && m[0].0 != key {
      PutLength(m[1..], key, v);
      assert m == [m[0]] + m[1..];
    }
  }

  /** A dictionary of as many rules holds the rules in their order. */
  lemma {:induction false} FullDict(rules: seq<Rule>)
    ensures |RuleDict(rules)| <= |rules|
    ensures |RuleDict(rules)| == |rules| ==> Values(RuleDict(rules)) == rules
  {
    if rules != [] {
      var n := |rules| - 1;
      var before := RuleDict(rules[..n]);
      FullDict(rules[..n]);
      PutLength(before, rules[n].name, rules[n]);
      assert rules == rules[..n] + [rules[n]];
      if |RuleDict(rules)| == |rules| {
        assert Values(RuleDict(rules)) == Values(before) + [rules[n]];
      }
    }
  }

  /** A grammar with a text, as its constructor builds it. */
  predicate Printable(g: Grammar) {
    FirstSets.WellNamed(g.rules) && forall i :: 0 <= i < |g.rules| ==> PrintableRule(g.rules[i].1)
  }

  lemma {:induction false} WithoutMetas(ts: Tokens)
    requires ts != [] && ts[0].value != "@"
    ensures GrammarAt(ts, 0)
         == if Rules(ts, 0).Ok? then Ok(MkGrammar(Rules(ts, 0).value, []), Rules(ts, 0).end) else Fail
  {
    hide Rules, RuleDict;
    assert Metas(ts, 0).Fail?;
  }

  lemma {:induction false} StartIs(ts: Tokens, g: Grammar)
    requires Start(ts, 0) == Ok(g, |ts|)
    ensures ts != [] && GrammarAt(ts, 0) == Ok(g, |ts| - 1)
  {
    hide GrammarAt;
  }

  /** What is read from the tokens of a grammar as the grammar itself is the list of its rules. */
  lemma {:induction false} ReadsItsRules(g: Grammar)
    requires Printable(g) && Start(GrammarTokens(g), 0) == Ok(g, |GrammarTokens(g)|)
    ensures g.metas == [] && Rules(GrammarTokens(g), 0) == Ok(Values(g.rules), |GrammarTokens(g)| - 1)
  {
    hide Start, GrammarAt, Rules, RulesTokens, RuleTokens, PrintableRule, Colons, RuleDict;
    var ts, rules := GrammarTokens(g), Values(g.rules);
    assert forall r :: r in rules ==> PrintableRule(r);
    FirstOfGrammar(g);
    StartIs(ts, g);
    WithoutMetas(ts);
    var r := Rules(ts, 0);
    FewerRulesThanColons(ts, 0, r.value, r.end);
    assert ts[0..|ts| - 1] == RulesTokens(rules);
    ColonsOfRules(rules);
    FullDict(r.value);
  }

  lemma {:induction false} FirstOfGrammar(g: Grammar)
    requires Printable(g)
    ensures GrammarTokens(g)[0].value != "@"
    ensures RulesThenEnd(GrammarTokens(g), 0, Values(g.rules), Token(EndMarker, ""))
  {
    hide RuleTokens, PrintableAlts, AltsTokens, OneLine;
    var ts, rules := GrammarTokens(g), Values(g.rules);
    assert ts[0..0 + |ts|] == ts;
    NoRulesTokens();
    if rules != [] {
      FirstOfRules(rules);
      HeadTokens(rules[0]);
      assert rules[0] == g.rules[0].1;
      assert PrintableRule(rules[0]);
      assert ts[0] == Token(Name, rules[0].name) && rules[0].name[0] in rules[0].name;
    }
  }

  lemma {:induction false} NoLookalike(r: Rule)
    requires PrintableRule(r)
    ensures !LooksLikeBlock(r)
  {
    hide OneLine, PrintableAlts, AltsTokens;
    var ts := AltsTokens(r.rhs.alts);
    if LooksLikeBlock(r) {
      assert ts[0..0 + |ts|] == ts;
      LookalikeTokens(ts, 0, r.rhs.alts);
    }
  }

  /**
   Of all the grammars that have a text, none of whose lines begins with the name
   `NewLine`, exactly the canonical ones are read back from their own tokens.
   */
  lemma {:induction false} ReadBackExactlyWhere(g: Grammar)
    requires Printable(g)
    ensures Start(GrammarTokens(g), 0) == Ok(g, |GrammarTokens(g)|) <==> CanonicalGrammar(g)
  {
    hide Start, Rules, RulesTokens, PrintableRule, CanonicalRule, RulesThenEnd;
    var ts, rules := GrammarTokens(g), Values(g.rules);
    assert forall r :: r in rules ==> PrintableRule(r);
    if Start(ts, 0) == Ok(g, |ts|) {
      ReadsItsRules(g);
      FirstOfGrammar(g);
      ColonsOfRules(rules);
      MarkerPlain();
      ConcatPlain(RulesTokens(rules), [Token(EndMarker, "")]);
      RulesSync(ts, 0, rules, |ts| - 1);
      assert forall i :: 0 <= i < |g.rules| ==> g.rules[i].1 == rules[i] && rules[i] in rules;
    }
    if CanonicalGrammar(g) {
      ParsingUndoesPrinting(g);
      forall k | 0 <= k < |rules| ensures !LooksLikeBlock(rules[k]) {
        NoLookalike(rules[k]);
      }
    }
  }
}
