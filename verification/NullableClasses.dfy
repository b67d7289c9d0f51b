/**
 Two classes of grammars for which it can be told beforehand what
 `computeNullables` marks. Where every rule refers to itself and to earlier
 rules, the marks are the rules that need no other rule to match nothing. Where
 every rule refers to later rules, and in one and the same way, the marks are
 all the rules that can match nothing.
 */
module NullableClasses {
  import opened Wrappers
  import opened GrammarTree
  import opened Nullables
  import opened FirstSets

  // A reference to a rule, in a place the walk gets to: as an item by itself,
  // or under a lookahead.
  datatype Use = Plain(item: NamedItem) | Looked(name: string)

  function Target(u: Use): string {
    match u
    case Plain(n) => if n.item.NameLeaf? then n.item.value else ""
    case Looked(v) => v
  }

  function AltsUses(alts: seq<Alt>): set<Use>
    decreases alts
  {
    if alts == [] then {} else AltUses(alts[0]) + AltsUses(alts[1..])
  }

  function AltUses(a: Alt): set<Use>
    decreases a
  {
    ItemsUses(a.items)
  }

  function ItemsUses(items: seq<NamedItem>): set<Use>
    decreases items
  {
    if items == [] then {} else NamedItemUses(items[0]) + ItemsUses(items[1..])
  }

  function NamedItemUses(n: NamedItem): set<Use>
    decreases n
  {
    if n.item.NameLeaf? then {Plain(n)} else ItemUses(n.item)
  }

  function ItemUses(x: Item): set<Use>
    decreases x
  {
    match x
    case NameLeaf(v) => {Looked(v)}
    case Group(r) => AltsUses(r.alts)
    case RhsItem(r) => AltsUses(r.alts)
    case PositiveLookahead(n) => ItemUses(n)
    case NegativeLookahead(n) => ItemUses(n)
    case _ => {}
  }

  function RuleUses(rules: Dict<Rule>, i: nat): set<Use>
    requires i < |rules|
  {
    AltsUses(rules[i].1.rhs.alts)
  }

  // Rules that refer to themselves and to earlier rules

  /** No rule refers to a rule that stands after it. */
  predicate DefinedBeforeUse(rules: Dict<Rule>) {
    forall i, u :: 0 <= i < |rules| && u in RuleUses(rules, i) ==>
      forall j :: i < j < |rules| ==> rules[j].0 != Target(u)
  }

  ghost predicate AllVisited(rules: Dict<Rule>, uses: set<Use>, m: Marks) {
    forall u :: u in uses && Lookup(rules, Target(u)).Some? ==> Lookup(rules, Target(u)).value in m.visited
  }

  ghost predicate SoundAtZero(rules: Dict<Rule>, m: Marks) {
    forall n :: n in m.nullables ==> Derives(rules, n, 0)
  }

  lemma {:induction false} AllVisitedGrows(rules: Dict<Rule>, some: set<Use>, uses: set<Use>, a: Marks, b: Marks)
    requires AllVisited(rules, uses, a) && some <= uses && Grows(a, b)
    ensures AllVisited(rules, some, b)
  {
  }

  // The walk of a part whose references all lead to visited rules.

  lemma {:induction false} AltsNeedNoRule(rules: Dict<Rule>, m: Marks, alts: seq<Alt>)
    requires SoundAtZero(rules, m) && AllVisited(rules, AltsUses(alts), m)
    ensures var (yes, end) := VisitAlts(rules, m, alts);
            SoundAtZero(rules, end) && (yes ==> AltsDerive(rules, alts, 0))
    decreases alts
  {
    hide Lookup, AllVisited, SoundAtZero;
    if alts != [] {
      AllVisitedGrows(rules, AltUses(alts[0]), AltsUses(alts), m, m);
      AltNeedsNoRule(rules, m, alts[0]);
      var next := VisitAlt(rules, m, alts[0]).1;
      AllVisitedGrows(rules, AltsUses(alts[1..]), AltsUses(alts), m, next);
      AltsNeedNoRule(rules, next, alts[1..]);
    }
  }

  lemma {:induction false} AltNeedsNoRule(rules: Dict<Rule>, m: Marks, a: Alt)
    requires SoundAtZero(rules, m) && AllVisited(rules, AltUses(a), m)
    ensures var (yes, end) := VisitAlt(rules, m, a);
            SoundAtZero(rules, end) && (yes ==> AltDerives(rules, a, 0))
    decreases a
  {
    ItemsNeedNoRule(rules, m, a.items);
  }

  lemma {:induction false} ItemsNeedNoRule(rules: Dict<Rule>, m: Marks, items: seq<NamedItem>)
    requires SoundAtZero(rules, m) && AllVisited(rules, ItemsUses(items), m)
    ensures var (yes, end) := VisitItems(rules, m, items);
            SoundAtZero(rules, end) && (yes ==> ItemsDerive(rules, items, 0))
    decreases items
  {
    hide Lookup, AllVisited, SoundAtZero;
    if items != [] {
      AllVisitedGrows(rules, NamedItemUses(items[0]), ItemsUses(items), m, m);
      NamedItemNeedsNoRule(rules, m, items[0]);
      var next := VisitNamedItem(rules, m, items[0]).1;
      AllVisitedGrows(rules, ItemsUses(items[1..]), ItemsUses(items), m, next);
      ItemsNeedNoRule(rules, next, items[1..]);
    }
  }

  lemma {:induction false} NamedItemNeedsNoRule(rules: Dict<Rule>, m: Marks, n: NamedItem)
    requires SoundAtZero(rules, m) && AllVisited(rules, NamedItemUses(n), m)
    ensures var (yes, end) := VisitNamedItem(rules, m, n);
            SoundAtZero(rules, end) && (yes ==> NamedItemDerives(rules, n, 0))
    decreases n, 1
  {
    if n.item.NameLeaf? {
      assert Target(Plain(n)) == n.item.value && Plain(n) in NamedItemUses(n);
      assert !VisitItem(rules, m, n.item).0 && VisitItem(rules, m, n.item).1 == m;
    } else {
      ItemNeedsNoRule(rules, m, n.item);
    }
    var (nullable, next) := VisitItem(rules, m, n.item);
    assert nullable ==> Derives(rules, ItemNode(n), 0);
    var end := VisitNamedItem(rules, m, n).1;
    assert SoundAtZero(rules, end);
    if ItemNode(n) in end.nullables {
      NodeDerivation(rules, ItemNode(n), 0);
    }
  }

  lemma {:induction false} ItemNeedsNoRule(rules: Dict<Rule>, m: Marks, x: Item)
    requires SoundAtZero(rules, m) && AllVisited(rules, ItemUses(x), m)
    ensures var (yes, end) := VisitItem(rules, m, x);
            SoundAtZero(rules, end) && (yes ==> ItemDerives(rules, x, 0))
    decreases x, 0
  {
    match x
    case NameLeaf(v) => assert Target(Looked(v)) == v && Looked(v) in ItemUses(x);
    case Group(r) => AltsNeedNoRule(rules, m, r.alts);
    case RhsItem(r) => AltsNeedNoRule(rules, m, r.alts);
    case PositiveLookahead(n) => ItemNeedsNoRule(rules, m, n);
    case NegativeLookahead(n) => ItemNeedsNoRule(rules, m, n);
    case _ =>
  }

  lemma {:induction false} LookupIsEarly(rules: Dict<Rule>, v: string, i: nat)
    requires i < |rules| && forall j :: i < j < |rules| ==> rules[j].0 != v
    ensures Lookup(rules, v).Some? ==> exists k :: 0 <= k <= i && rules[k].1 == Lookup(rules, v).value
    decreases i
  {
    if rules[0].0 == v {
      assert rules[0].1 == Lookup(rules, v).value;
    } else if i > 0 {
      LookupIsEarly(rules[1..], v, i - 1);
      if Lookup(rules, v).Some? {
        var k :| 0 <= k <= i - 1 && rules[1..][k].1 == Lookup(rules, v).value;
        assert rules[k + 1].1 == Lookup(rules, v).value;
      }
    } else {
      NoSuchName(rules[1..], v);
    }
  }

  lemma {:induction false} NoSuchName(rules: Dict<Rule>, v: string)
    requires forall j :: 0 <= j < |rules| ==> rules[j].0 != v
    ensures Lookup(rules, v).None?
  {
    if rules != [] {
      NoSuchName(rules[1..], v);
    }
  }

  // The loop over the rules, which finds all earlier rules visited.
  lemma {:induction false} RulesNeedNoRule(rules: Dict<Rule>, m: Marks, i: nat)
    requires DefinedBeforeUse(rules) && i <= |rules| && SoundAtZero(rules, m)
    requires forall k :: 0 <= k < i ==> rules[k].1 in m.visited
    requires forall k :: 0 <= k < |rules[i..]| ==> Has(rules, rules[i..][k].1)
    ensures SoundAtZero(rules, VisitRules(rules, m, rules[i..]))
    decreases |rules| - i
  {
    if i < |rules| {
      var r := rules[i].1;
      assert rules[i..][0].1 == r && rules[i..][1..] == rules[i + 1..];
      var next := VisitRule(rules, m, r).1;
      if r !in m.visited {
        var m' := m.(visited := m.visited + [r]);
        forall u | u in RuleUses(rules, i) && Lookup(rules, Target(u)).Some?
          ensures Lookup(rules, Target(u)).value in m'.visited
        {
          LookupIsEarly(rules, Target(u), i);
        }
        AltsNeedNoRule(rules, m', r.rhs.alts);
        assert VisitAlts(rules, m', r.rhs.alts).0 ==> Derives(rules, RuleNode(r), 0);
      }
      assert SoundAtZero(rules, next);
      RulesNeedNoRule(rules, next, i + 1);
    }
  }

  /**
   Where each rule refers only to itself and to earlier rules, the marked rules are
   exactly those that can match nothing without going through a rule.
   */
  lemma {:induction false} BackwardMarks(rules: Dict<Rule>, r: Rule)
    requires DefinedBeforeUse(rules) && Has(rules, r)
    ensures RuleNode(r) in ComputeNullables(rules) <==> AltsDerive(rules, r.rhs.alts, 0)
  {
    assert rules[0..] == rules;
    assert forall i :: 0 <= i < |rules| ==> Has(rules, rules[i].1);
    RulesNeedNoRule(rules, Marks([], []), 0);
    if RuleNode(r) in ComputeNullables(rules) {
      assert Derives(rules, RuleNode(r), 0);
      NodeDerivation(rules, RuleNode(r), 0);
    }
    if AltsDerive(rules, r.rhs.alts, 0) {
      NullablesAreCompleteAtDepthZero(rules, r);
    }
  }

  /** So in such a grammar a rule is judged rightly exactly where it needs no other rule to match nothing. */
  lemma {:induction false} BackwardMarksAreRightExactlyWhere(rules: Dict<Rule>, r: Rule)
    requires DefinedBeforeUse(rules) && Has(rules, r)
    ensures (RuleNode(r) in ComputeNullables(rules) <==> Nullable(rules, r))
       <==> (Nullable(rules, r) ==> AltsDerive(rules, r.rhs.alts, 0))
  {
    BackwardMarks(rules, r);
  }

  // Rules that refer to later rules

  /** Each rule refers only to rules that stand after it. */
  predicate UsedBeforeDefined(rules: Dict<Rule>) {
    forall i, u :: 0 <= i < |rules| && u in RuleUses(rules, i) ==>
      forall j :: 0 <= j <= i ==> rules[j].0 != Target(u)
  }

  /** All references to one rule are the same named item, or all stand under lookaheads. */
  predicate UsedInOneWay(rules: Dict<Rule>) {
    forall i, j, u, v ::
      (&& 0 <= i < |rules| && 0 <= j < |rules| && u in RuleUses(rules, i) && v in RuleUses(rules, j)
       && Target(u) == Target(v) && Lookup(rules, Target(u)).Some?)
      ==> u == v
  }

  predicate Forward(rules: Dict<Rule>) {
    WellNamed(rules) && UsedBeforeDefined(rules) && UsedInOneWay(rules)
  }

  /** The references come from some rule, and lead past the rule at the index. */
  ghost predicate Onwards(rules: Dict<Rule>, uses: set<Use>, i: nat) {
    && (forall u :: u in uses ==> exists k :: 0 <= k < |rules| && u in RuleUses(rules, k))
    && (forall u, j :: u in uses && 0 <= j <= i && j < |rules| ==> rules[j].0 != Target(u))
  }

  lemma {:induction false} OnwardsPart(rules: Dict<Rule>, some: set<Use>, uses: set<Use>, i: nat)
    requires Onwards(rules, uses, i) && some <= uses
    ensures Onwards(rules, some, i)
  {
  }

  // While the rule at `top` is visited from the loop over the rules: what is
  // known of visited rules that are not under way.

  ghost predicate RulesRight(rules: Dict<Rule>, m: Marks, open: set<Rule>) {
    forall r :: r in m.visited && r !in open && Nullable(rules, r) ==> RuleNode(r) in m.nullables
  }

  ghost predicate ItemsRight(rules: Dict<Rule>, m: Marks, open: set<Rule>, top: nat) {
    forall i, k, n ::
      (&& top < i < |rules| && rules[i].1 in m.visited && rules[i].1 !in open && Nullable(rules, rules[i].1)
       && 0 <= k < |rules| && Plain(n) in RuleUses(rules, k) && Target(Plain(n)) == rules[i].0)
      ==> ItemNode(n) in m.nullables
  }

  ghost predicate Right(rules: Dict<Rule>, m: Marks, open: set<Rule>, top: nat) {
    RulesRight(rules, m, open) && ItemsRight(rules, m, open, top)
  }

  /** The rules under way stand no later than the index. */
  ghost predicate OpenUpTo(rules: Dict<Rule>, open: set<Rule>, i: nat) {
    forall j :: i < j < |rules| ==> rules[j].1 !in open
  }

  lemma {:induction false} LookupIs(rules: Dict<Rule>, v: string) returns (i: nat)
    requires WellNamed(rules) && Lookup(rules, v).Some?
    ensures i < |rules| && rules[i].0 == v && Lookup(rules, v) == Some(rules[i].1) && rules[i].1.name == v
  {
    if rules[0].0 == v {
      i := 0;
    } else {
      var k := LookupIs(rules[1..], v);
      i := k + 1;
    }
  }

  // Each lemma below says of one part: what is right stays right, and a part
  // that can match nothing is found to.

  lemma {:induction false} RuleForward(rules: Dict<Rule>, m: Marks, i: nat, open: set<Rule>, top: nat)
    requires Forward(rules) && top <= i < |rules| && rules[i].1 !in m.visited
    requires Right(rules, m, open, top) && forall j :: i <= j < |rules| ==> rules[j].1 !in open
    ensures Has(rules, rules[i].1)
    ensures var (yes, end) := VisitRule(rules, m, rules[i].1);
            && RulesRight(rules, end, open) && ItemsRight(rules, end, open + {rules[i].1}, top)
            && (Nullable(rules, rules[i].1) ==> yes)
    decreases |Unvisited(rules, m.visited)|, 0, rules[i].1, 0
  {
    hide NamedItemUses, ItemUses, ItemsUses, AltUses, AltsUses, UsedInOneWay, Nullable;
    var r := rules[i].1;
    assert Has(rules, r);
    FewerUnvisited(rules, m.visited, m.visited + [r]);
    var m' := m.(visited := m.visited + [r]);
    var open' := open + {r};
    assert Right(rules, m', open', top);
    assert OpenUpTo(rules, open', i);
    assert Onwards(rules, RuleUses(rules, i), i);
    AltsForward(rules, m', r.rhs.alts, i, open', top);
    NullableByAlts(rules, r, VisitAlts(rules, m', r.rhs.alts).0);
  }

  lemma {:induction false} NullableByAlts(rules: Dict<Rule>, r: Rule, yes: bool)
    requires forall d: nat :: AltsDerive(rules, r.rhs.alts, d) ==> yes
    ensures Nullable(rules, r) ==> yes
  {
  }

  lemma {:induction false} AltsForward(rules: Dict<Rule>, m: Marks, alts: seq<Alt>, i: nat, open: set<Rule>, top: nat)
    requires Forward(rules) && top <= i && Right(rules, m, open, top) && OpenUpTo(rules, open, i)
    requires Onwards(rules, AltsUses(alts), i)
    ensures var (yes, end) := VisitAlts(rules, m, alts);
            Right(rules, end, open, top) && forall d: nat :: AltsDerive(rules, alts, d) ==> yes
    decreases |Unvisited(rules, m.visited)|, 1, alts, 0
  {
    hide Right, OpenUpTo, Onwards, Forward;
    if alts != [] {
      OnwardsPart(rules, AltUses(alts[0]), AltsUses(alts), i);
      AltForward(rules, m, alts[0], i, open, top);
      var (nullable, next) := VisitAlt(rules, m, alts[0]);
      if !nullable {
        FewerUnvisited(rules, m.visited, next.visited);
        OnwardsPart(rules, AltsUses(alts[1..]), AltsUses(alts), i);
        AltsForward(rules, next, alts[1..], i, open, top);
      }
    }
  }

  lemma {:induction false} AltForward(rules: Dict<Rule>, m: Marks, a: Alt, i: nat, open: set<Rule>, top: nat)
    requires Forward(rules) && top <= i && Right(rules, m, open, top) && OpenUpTo(rules, open, i)
    requires Onwards(rules, AltUses(a), i)
    ensures var (yes, end) := VisitAlt(rules, m, a);
            Right(rules, end, open, top) && forall d: nat :: AltDerives(rules, a, d) ==> yes
    decreases |Unvisited(rules, m.visited)|, 1, a, 0
  {
    ItemsForward(rules, m, a.items, i, open, top);
  }

  lemma {:induction false} ItemsForward(
    rules: Dict<Rule>, m: Marks, items: seq<NamedItem>, i: nat, open: set<Rule>, top: nat
  )
    requires Forward(rules) && top <= i && Right(rules, m, open, top) && OpenUpTo(rules, open, i)
    requires Onwards(rules, ItemsUses(items), i)
    ensures var (yes, end) := VisitItems(rules, m, items);
            Right(rules, end, open, top) && forall d: nat :: ItemsDerive(rules, items, d) ==> yes
    decreases |Unvisited(rules, m.visited)|, 1, items, 0
  {
    hide Right, OpenUpTo, Onwards, Forward;
    if items != [] {
      OnwardsPart(rules, NamedItemUses(items[0]), ItemsUses(items), i);
      NamedItemForward(rules, m, items[0], i, open, top);
      var (nullable, next) := VisitNamedItem(rules, m, items[0]);
      if nullable {
        FewerUnvisited(rules, m.visited, next.visited);
        OnwardsPart(rules, ItemsUses(items[1..]), ItemsUses(items), i);
        ItemsForward(rules, next, items[1..], i, open, top);
      }
    }
  }

  lemma {:induction false} NamedItemForward(
    rules: Dict<Rule>, m: Marks, n: NamedItem, i: nat, open: set<Rule>, top: nat
  )
    requires Forward(rules) && top <= i && Right(rules, m, open, top) && OpenUpTo(rules, open, i)
    requires Onwards(rules, NamedItemUses(n), i)
    ensures var (yes, end) := VisitNamedItem(rules, m, n);
            Right(rules, end, open, top) && forall d: nat :: NamedItemDerives(rules, n, d) ==> yes
    decreases |Unvisited(rules, m.visited)|, 1, n, 0
  {
    hide OpenUpTo, Onwards, Forward;
    if n.item.NameLeaf? {
      if Lookup(rules, n.item.value).Some? {
        ReferenceForward(rules, m, n, i, open, top);
      }
    } else {
      ItemForward(rules, m, n.item, i, open, top);
    }
  }

  lemma {:induction false} MarkMore(
    rules: Dict<Rule>, m: Marks, more: seq<Node>, some: set<Rule>, open: set<Rule>, top: nat
  )
    requires RulesRight(rules, m, some) && ItemsRight(rules, m, open, top)
    ensures var end := m.(nullables := m.nullables + more);
            RulesRight(rules, end, some) && ItemsRight(rules, end, open, top)
  {
  }

  /** The first reference by an item visits the rule. */
  lemma {:induction false} FirstReference(
    rules: Dict<Rule>, m: Marks, n: NamedItem, c: nat, open: set<Rule>, top: nat
  )
    requires Forward(rules) && top <= c < |rules| && rules[c].1 !in m.visited && Right(rules, m, open, top)
    requires forall j :: c <= j < |rules| ==> rules[j].1 !in open
    requires n.item.NameLeaf? && n.item.value == rules[c].0 && Lookup(rules, rules[c].0) == Some(rules[c].1)
    requires exists k :: 0 <= k < |rules| && Plain(n) in RuleUses(rules, k)
    ensures var (yes, end) := VisitNamedItem(rules, m, n);
            Right(rules, end, open, top) && (Nullable(rules, rules[c].1) ==> yes)
    decreases |Unvisited(rules, m.visited)|, 1, n.item, -1
  {
    hide RulesRight, ItemsRight, Nullable, NamedItemUses, UsedBeforeDefined, UsedInOneWay;
    var r := rules[c].1;
    RuleForward(rules, m, c, open, top);
    var (nullable, next) := VisitRule(rules, m, r);
    assert VisitItem(rules, m, n.item) == (nullable, next);
    var (yes, end) := VisitNamedItem(rules, m, n);
    MarkMore(rules, next, [ItemNode(n)], open, open + {r}, top);
    assert RulesRight(rules, end, open) && ItemsRight(rules, end, open + {r}, top);
    OneWayItems(rules, end, n, c, open, top);
  }

  /** Later ones find the item marked. */
  lemma {:induction false} ReferenceForward(
    rules: Dict<Rule>, m: Marks, n: NamedItem, i: nat, open: set<Rule>, top: nat
  )
    requires Forward(rules) && top <= i && Right(rules, m, open, top) && OpenUpTo(rules, open, i)
    requires n.item.NameLeaf? && Onwards(rules, {Plain(n)}, i) && Lookup(rules, n.item.value).Some?
    ensures var (yes, end) := VisitNamedItem(rules, m, n);
            Right(rules, end, open, top) && forall d: nat :: NamedItemDerives(rules, n, d) ==> yes
    decreases |Unvisited(rules, m.visited)|, 1, n.item, 0
  {
    hide Nullable, NamedItemUses, UsedBeforeDefined, UsedInOneWay;
    var c := LookupIs(rules, n.item.value);
    var r := rules[c].1;
    assert Plain(n) in {Plain(n)} && Target(Plain(n)) == rules[c].0;
    assert c > i;
    if r !in m.visited {
      FirstReference(rules, m, n, c, open, top);
    } else {
      assert VisitItem(rules, m, n.item) == (false, m);
    }
    ReferenceDerives(rules, n, r);
  }

  lemma {:induction false} ReferenceDerives(rules: Dict<Rule>, n: NamedItem, r: Rule)
    requires n.item.NameLeaf? && Lookup(rules, n.item.value) == Some(r)
    ensures forall d: nat :: NamedItemDerives(rules, n, d) ==> Nullable(rules, r)
  {
    forall d: nat | NamedItemDerives(rules, n, d)
      ensures Nullable(rules, r)
    {
      assert ItemDerives(rules, n.item, d) && AltsDerive(rules, r.rhs.alts, d - 1);
    }
  }

  lemma {:induction false} OneWayItems(
    rules: Dict<Rule>, m: Marks, n: NamedItem, c: nat, open: set<Rule>, top: nat
  )
    requires WellNamed(rules) && UsedInOneWay(rules) && c < |rules|
    requires exists k :: 0 <= k < |rules| && Plain(n) in RuleUses(rules, k)
    requires Target(Plain(n)) == rules[c].0 && Lookup(rules, rules[c].0).Some?
    requires ItemsRight(rules, m, open + {rules[c].1}, top)
    requires Nullable(rules, rules[c].1) ==> ItemNode(n) in m.nullables
    ensures ItemsRight(rules, m, open, top)
  {
  }

  lemma {:induction false} ItemForward(rules: Dict<Rule>, m: Marks, x: Item, i: nat, open: set<Rule>, top: nat)
    requires Forward(rules) && top <= i && Right(rules, m, open, top) && OpenUpTo(rules, open, i)
    requires Onwards(rules, ItemUses(x), i)
    ensures var (yes, end) := VisitItem(rules, m, x);
            && Right(rules, end, open, top)
            && (!x.NameLeaf? ==> forall d: nat :: ItemDerives(rules, x, d) ==> yes)
    decreases |Unvisited(rules, m.visited)|, 1, x, 1
  {
    hide Right, OpenUpTo, Onwards, Forward;
    match x
    case NameLeaf(v) =>
      if Lookup(rules, v).Some? {
        LookedForward(rules, m, x, i, open, top);
      }
    case Group(r) => AltsForward(rules, m, r.alts, i, open, top);
    case RhsItem(r) => AltsForward(rules, m, r.alts, i, open, top);
    case PositiveLookahead(n) => ItemForward(rules, m, n, i, open, top);
    case NegativeLookahead(n) => ItemForward(rules, m, n, i, open, top);
    case _ =>
  }

  /** A reference under a lookahead may visit the rule, to which then no item refers. */
  lemma {:induction false} LookedForward(rules: Dict<Rule>, m: Marks, x: Item, i: nat, open: set<Rule>, top: nat)
    requires Forward(rules) && top <= i && Right(rules, m, open, top) && OpenUpTo(rules, open, i)
    requires x.NameLeaf? && Onwards(rules, {Looked(x.value)}, i) && Lookup(rules, x.value).Some?
    ensures Right(rules, VisitItem(rules, m, x).1, open, top)
    decreases |Unvisited(rules, m.visited)|, 1, x, 0
  {
    var c := LookupIs(rules, x.value);
    var r := rules[c].1;
    assert Looked(x.value) in {Looked(x.value)} && Target(Looked(x.value)) == rules[c].0;
    assert c > i;
    if r !in m.visited {
      RuleForward(rules, m, c, open, top);
      var end := VisitRule(rules, m, r).1;
      assert ItemsRight(rules, end, open, top);
    }
  }

  lemma {:induction false} RulesForward(rules: Dict<Rule>, m: Marks, top: nat)
    requires Forward(rules) && top <= |rules|
    requires RulesRight(rules, m, {}) && (top > 0 ==> ItemsRight(rules, m, {}, top - 1))
    requires top == 0 ==> m.visited == []
    requires forall k :: 0 <= k < |rules[top..]| ==> Has(rules, rules[top..][k].1)
    ensures RulesRight(rules, VisitRules(rules, m, rules[top..]), {})
    decreases |rules| - top
  {
    if top < |rules| {
      var r := rules[top].1;
      assert rules[top..][0].1 == r && rules[top..][1..] == rules[top + 1..];
      var next := VisitRule(rules, m, r).1;
      assert ItemsRight(rules, m, {}, top);
      if r !in m.visited {
        RuleForward(rules, m, top, {}, top);
      }
      assert ItemsRight(rules, next, {}, top);
      RulesForward(rules, next, top + 1);
    }
  }

  /**
   Where each rule refers only to later rules, and the references to one rule are
   the same item or all under lookaheads, the marked rules are exactly those that
   can match nothing, through however many rules.
   */
  lemma {:induction false} ForwardMarks(rules: Dict<Rule>, r: Rule)
    requires Forward(rules) && Has(rules, r)
    ensures RuleNode(r) in ComputeNullables(rules) <==> Nullable(rules, r)
  {
    assert rules[0..] == rules;
    assert forall i :: 0 <= i < |rules| ==> Has(rules, rules[i].1);
    RulesForward(rules, Marks([], []), 0);
    if RuleNode(r) in ComputeNullables(rules) {
      NullablesAreSound(rules, RuleNode(r));
      var d: nat :| Derives(rules, RuleNode(r), d);
      NodeDerivation(rules, RuleNode(r), d);
    }
  }

  const TwoRulesTurned: Dict<Rule> := [("b", ReferenceRule), ("a", OptionRule)]

  lemma {:induction false} UsesOfTwoRules()
    ensures AltsUses(OptionRule.rhs.alts) == {} && AltsUses(ReferenceRule.rhs.alts) == {Plain(SomeReference)}
  {
    assert OptionRule.rhs.alts[1..] == [] && ReferenceRule.rhs.alts[1..] == [];
    assert [SomeOption][1..] == [] && [SomeReference][1..] == [];
    assert NamedItemUses(SomeOption) == {} && NamedItemUses(SomeReference) == {Plain(SomeReference)};
    assert ItemsUses([SomeOption]) == {} && ItemsUses([SomeReference]) == {Plain(SomeReference)};
    assert AltUses(OptionRule.rhs.alts[0]) == {} && AltUses(ReferenceRule.rhs.alts[0]) == {Plain(SomeReference)};
  }

  /** The order of two rules decides: `b: a` is not marked after `a: ['x']`, and is before it. */
  lemma {:induction false} OrderDecides()
    ensures DefinedBeforeUse(TwoRules) && Has(TwoRules, ReferenceRule) && Nullable(TwoRules, ReferenceRule)
    ensures RuleNode(ReferenceRule) !in ComputeNullables(TwoRules)
    ensures Forward(TwoRulesTurned) && RuleNode(ReferenceRule) in ComputeNullables(TwoRulesTurned)
  {
    hide VisitRule, AltsUses, AltsDerive;
    UsesOfTwoRules();
    NullablesMissDepthOne();
    assert TwoRulesTurned[0].1 == ReferenceRule;
    assert Lookup(TwoRulesTurned, "a") == Some(OptionRule);
    TurnedDerivesNothing();
    ForwardMarks(TwoRulesTurned, ReferenceRule);
  }

  lemma {:induction false} TurnedDerivesNothing()
    ensures AltsDerive(TwoRulesTurned, ReferenceRule.rhs.alts, 1)
  {
    assert Lookup(TwoRulesTurned, "a") == Some(OptionRule);
    assert NamedItemDerives(TwoRulesTurned, SomeOption, 0);
    assert ItemsDerive(TwoRulesTurned, [SomeOption], 0);
    assert AltDerives(TwoRulesTurned, OptionRule.rhs.alts[0], 0);
    assert AltsDerive(TwoRulesTurned, OptionRule.rhs.alts, 0);
    assert NamedItemDerives(TwoRulesTurned, SomeReference, 1);
    assert ItemsDerive(TwoRulesTurned, [SomeReference], 1);
    assert AltDerives(TwoRulesTurned, ReferenceRule.rhs.alts[0], 1);
  }
}
