/**
 The FIRST sets as recursive equations, and the rules on which the memoised
 walk of FirstSetCalculator.php agrees with them.
 */
module FirstEquations {
  import opened Wrappers
  import opened GrammarTree
  import opened Nullables
  import opened FirstSets

  // The equations, cut off after `depth` rules.

  function RuleFirst(rules: Dict<Rule>, marked: seq<Node>, r: Rule, depth: nat): set<string>
    decreases depth, 1, r
  {
    AltsFirst(rules, marked, r.rhs.alts, depth) + if RuleNode(r) in marked then {""} else {}
  }

  function AltsFirst(rules: Dict<Rule>, marked: seq<Node>, alts: seq<Alt>, depth: nat): set<string>
    decreases depth, 0, alts
  {
    if alts == [] then {} else AltFirst(rules, marked, alts[0], depth) + AltsFirst(rules, marked, alts[1..], depth)
  }

  /** Everything shown before the first item that cannot be passed over, less what is barred there. */
  function AltFirst(rules: Dict<Rule>, marked: seq<Node>, a: Alt, depth: nat): set<string>
    decreases depth, 0, a
  {
    Shown(rules, marked, a.items, depth) - Barred(rules, marked, a.items, depth) - {""}
  }

  function Shown(rules: Dict<Rule>, marked: seq<Node>, items: seq<NamedItem>, depth: nat): set<string>
    decreases depth, 0, items
  {
    if items == [] then {}
    else
      NamedItemFirst(rules, marked, items[0], depth)
      + if PassedOver(rules, marked, items[0], depth) then Shown(rules, marked, items[1..], depth) else {}
  }

  function Barred(rules: Dict<Rule>, marked: seq<Node>, items: seq<NamedItem>, depth: nat): set<string>
    decreases depth, 0, items
  {
    if items == [] then {}
    else
      (if items[0].item.NegativeLookahead? then NamedItemFirst(rules, marked, items[0], depth) else {})
      + if PassedOver(rules, marked, items[0], depth) then Barred(rules, marked, items[1..], depth) else {}
  }

  predicate PassedOver(rules: Dict<Rule>, marked: seq<Node>, n: NamedItem, depth: nat)
    decreases depth, 0, n, 1
  {
    MayBeSkipped(n.item) || "" in NamedItemFirst(rules, marked, n, depth)
  }

  function NamedItemFirst(rules: Dict<Rule>, marked: seq<Node>, n: NamedItem, depth: nat): set<string>
    decreases depth, 0, n, 0
  {
    ItemFirst(rules, marked, n.item, depth)
  }

  function ItemFirst(rules: Dict<Rule>, marked: seq<Node>, x: Item, depth: nat): set<string>
    decreases depth, 0, x, 0
  {
    match x
    case NameLeaf(v) =>
      if Lookup(rules, v).None? then {v}
      else if depth == 0 then {}
      else RuleFirst(rules, marked, Lookup(rules, v).value, depth - 1)
    case StringLeaf(v) => {v}
    case Group(r) => AltsFirst(rules, marked, r.alts, depth)
    case RhsItem(r) => AltsFirst(rules, marked, r.alts, depth)
    case Opt(n) => ItemFirst(rules, marked, n, depth)
    case Repeat0(n) => ItemFirst(rules, marked, n, depth)
    case Repeat1(n) => ItemFirst(rules, marked, n, depth)
    case Gather(_, n) => ItemFirst(rules, marked, n, depth)
    case PositiveLookahead(n) => ItemFirst(rules, marked, n, depth)
    case NegativeLookahead(n) => ItemFirst(rules, marked, n, depth)
    case Cut => {}
    case Forced(_) => {}
  }

  // Where the equations are not cut off: every chain of first-position references
  // ends within `depth` rules, and none meets a Forced item.

  predicate AltsEnd(rules: Dict<Rule>, marked: seq<Node>, alts: seq<Alt>, depth: nat)
    decreases depth, alts
  {
    alts == [] || (AltEnds(rules, marked, alts[0], depth) && AltsEnd(rules, marked, alts[1..], depth))
  }

  predicate AltEnds(rules: Dict<Rule>, marked: seq<Node>, a: Alt, depth: nat)
    decreases depth, a
  {
    ItemsEnd(rules, marked, a.items, depth)
  }

  predicate ItemsEnd(rules: Dict<Rule>, marked: seq<Node>, items: seq<NamedItem>, depth: nat)
    decreases depth, items
  {
    || items == []
    || (&& NamedItemEnds(rules, marked, items[0], depth)
        && (PassedOver(rules, marked, items[0], depth) ==> ItemsEnd(rules, marked, items[1..], depth)))
  }

  predicate NamedItemEnds(rules: Dict<Rule>, marked: seq<Node>, n: NamedItem, depth: nat)
    decreases depth, n
  {
    ItemEnds(rules, marked, n.item, depth)
  }

  predicate ItemEnds(rules: Dict<Rule>, marked: seq<Node>, x: Item, depth: nat)
    decreases depth, x
  {
    match x
    case NameLeaf(v) =>
      Lookup(rules, v).None? || (depth > 0 && AltsEnd(rules, marked, Lookup(rules, v).value.rhs.alts, depth - 1))
    case StringLeaf(_) => true
    case Group(r) => AltsEnd(rules, marked, r.alts, depth)
    case RhsItem(r) => AltsEnd(rules, marked, r.alts, depth)
    case Opt(n) => ItemEnds(rules, marked, n, depth)
    case Repeat0(n) => ItemEnds(rules, marked, n, depth)
    case Repeat1(n) => ItemEnds(rules, marked, n, depth)
    case Gather(_, n) => ItemEnds(rules, marked, n, depth)
    case PositiveLookahead(n) => ItemEnds(rules, marked, n, depth)
    case NegativeLookahead(n) => ItemEnds(rules, marked, n, depth)
    case Cut => true
    case Forced(_) => false
  }

  // More depth changes nothing where the equations are not cut off.

  lemma {:induction false} AltsSettle(rules: Dict<Rule>, marked: seq<Node>, alts: seq<Alt>, d: nat, e: nat)
    requires AltsEnd(rules, marked, alts, d) && d <= e
    ensures AltsEnd(rules, marked, alts, e) && AltsFirst(rules, marked, alts, e) == AltsFirst(rules, marked, alts, d)
    decreases d, alts
  {
    if alts != [] {
      AltSettles(rules, marked, alts[0], d, e);
      AltsSettle(rules, marked, alts[1..], d, e);
    }
  }

  lemma {:induction false} AltSettles(rules: Dict<Rule>, marked: seq<Node>, a: Alt, d: nat, e: nat)
    requires AltEnds(rules, marked, a, d) && d <= e
    ensures AltEnds(rules, marked, a, e) && AltFirst(rules, marked, a, e) == AltFirst(rules, marked, a, d)
    decreases d, a
  {
    ItemsSettle(rules, marked, a.items, d, e);
  }

  lemma {:induction false} ItemsSettle(rules: Dict<Rule>, marked: seq<Node>, items: seq<NamedItem>, d: nat, e: nat)
    requires ItemsEnd(rules, marked, items, d) && d <= e
    ensures ItemsEnd(rules, marked, items, e)
    ensures Shown(rules, marked, items, e) == Shown(rules, marked, items, d)
    ensures Barred(rules, marked, items, e) == Barred(rules, marked, items, d)
    decreases d, items
  {
    if items != [] {
      NamedItemSettles(rules, marked, items[0], d, e);
      if PassedOver(rules, marked, items[0], d) {
        ItemsSettle(rules, marked, items[1..], d, e);
      }
    }
  }

  lemma {:induction false} NamedItemSettles(rules: Dict<Rule>, marked: seq<Node>, n: NamedItem, d: nat, e: nat)
    requires NamedItemEnds(rules, marked, n, d) && d <= e
    ensures NamedItemEnds(rules, marked, n, e)
    ensures NamedItemFirst(rules, marked, n, e) == NamedItemFirst(rules, marked, n, d)
    decreases d, n
  {
    ItemSettles(rules, marked, n.item, d, e);
  }

  lemma {:induction false} ItemSettles(rules: Dict<Rule>, marked: seq<Node>, x: Item, d: nat, e: nat)
    requires ItemEnds(rules, marked, x, d) && d <= e
    ensures ItemEnds(rules, marked, x, e) && ItemFirst(rules, marked, x, e) == ItemFirst(rules, marked, x, d)
    decreases d, x
  {
    match x
    case NameLeaf(v) =>
      if Lookup(rules, v).Some? {
        AltsSettle(rules, marked, Lookup(rules, v).value.rhs.alts, d - 1, e - 1);
      }
    case Group(r) => AltsSettle(rules, marked, r.alts, d, e);
    case RhsItem(r) => AltsSettle(rules, marked, r.alts, d, e);
    case StringLeaf(_) | Cut | Forced(_) =>
    case Opt(n) => ItemSettles(rules, marked, n, d, e);
    case Repeat0(n) => ItemSettles(rules, marked, n, d, e);
    case Repeat1(n) => ItemSettles(rules, marked, n, d, e);
    case Gather(_, n) => ItemSettles(rules, marked, n, d, e);
    case PositiveLookahead(n) => ItemSettles(rules, marked, n, d, e);
    case NegativeLookahead(n) => ItemSettles(rules, marked, n, d, e);
  }

  // What the walk keeps

  /** The rule named `v` has no chain of first-position references longer than `depth`. */
  ghost predicate Grounded(rules: Dict<Rule>, marked: seq<Node>, v: string, depth: nat) {
    Lookup(rules, v).Some? && AltsEnd(rules, marked, Lookup(rules, v).value.rhs.alts, depth)
  }

  ghost predicate Acyclic(rules: Dict<Rule>, marked: seq<Node>, v: string) {
    exists d: nat :: Grounded(rules, marked, v, d)
  }

  ghost function FirstOf(rules: Dict<Rule>, marked: seq<Node>, v: string, depth: nat): set<string>
    requires Lookup(rules, v).Some?
  {
    RuleFirst(rules, marked, Lookup(rules, v).value, depth)
  }

  lemma {:induction false} GroundedSettles(rules: Dict<Rule>, marked: seq<Node>, v: string, d: nat, e: nat)
    requires Grounded(rules, marked, v, d) && d <= e
    ensures Grounded(rules, marked, v, e) && FirstOf(rules, marked, v, e) == FirstOf(rules, marked, v, d)
  {
    AltsSettle(rules, marked, Lookup(rules, v).value.rhs.alts, d, e);
  }

  /** A finished set of a grounded rule is the one its equation gives. */
  ghost predicate Exact(rules: Dict<Rule>, marked: seq<Node>, w: Walk) {
    forall v, d: nat :: v in w.sets && v !in w.open && Grounded(rules, marked, v, d) ==>
      w.sets[v] == FirstOf(rules, marked, v, d)
  }

  /** What is finished newly is a rule of this kind. */
  ghost predicate OnlyAcyclic(rules: Dict<Rule>, marked: seq<Node>, w: Walk, end: Walk) {
    forall v :: v in end.sets && v !in w.sets ==> Acyclic(rules, marked, v)
  }

  /** No rule under way is grounded at less than `depth`. */
  ghost predicate Above(rules: Dict<Rule>, marked: seq<Node>, open: set<string>, depth: nat) {
    forall v, d: nat :: v in open && d < depth ==> !Grounded(rules, marked, v, d)
  }

  /** The least depth at which the rule named `v` is grounded. */
  ghost function Least(rules: Dict<Rule>, marked: seq<Node>, v: string, d: nat): (m: nat)
    requires Grounded(rules, marked, v, d)
    ensures m <= d && Grounded(rules, marked, v, m)
    ensures forall k: nat :: k < m ==> !Grounded(rules, marked, v, k)
  {
    if m: nat :| m < d && Grounded(rules, marked, v, m) then Least(rules, marked, v, m)
    else d
  }

  // A grounded part is walked to its equation.

  lemma {:induction false} WalkRuleExact(rules: Dict<Rule>, marked: seq<Node>, w: Walk, r: Rule, d: nat)
    requires WellNamed(rules) && Has(rules, r) && Exact(rules, marked, w)
    requires Grounded(rules, marked, r.name, d) && r.name !in w.open && Above(rules, marked, w.open, d)
    requires forall k: nat :: k < d ==> !Grounded(rules, marked, r.name, k)
    ensures var (found, end) := WalkRule(rules, marked, w, r);
            && found == FirstOf(rules, marked, r.name, d)
            && r.name in end.sets && end.sets[r.name] == found
            && Exact(rules, marked, end) && OnlyAcyclic(rules, marked, w, end) && end.failed == w.failed
    decreases |Names(rules) - w.open|, 0, r
  {
    hide Exact, Grounded, OnlyAcyclic, FirstOf, AltsEnd, Above;
    LookupFinds(rules, r);
    if r.name in w.sets {
      ExactAt(rules, marked, w, r.name, d);
      NothingNew(rules, marked, w);
    } else {
      FewerClosed(rules, w.open, r);
      GroundedAlts(rules, marked, r, d);
      var inner := w.(open := w.open + {r.name});
      OpenOne(rules, marked, w, r.name, d);
      WalkAltsExact(rules, marked, inner, r.rhs.alts, d);
      var next := WalkAlts(rules, marked, inner, r.rhs.alts).1;
      ClosesExact(rules, marked, w, next, r, d, WalkRule(rules, marked, w, r).0);
    }
  }

  lemma {:induction false} GroundedAlts(rules: Dict<Rule>, marked: seq<Node>, r: Rule, d: nat)
    requires Lookup(rules, r.name) == Some(r) && Grounded(rules, marked, r.name, d)
    ensures AltsEnd(rules, marked, r.rhs.alts, d)
    ensures FirstOf(rules, marked, r.name, d)
         == AltsFirst(rules, marked, r.rhs.alts, d) + if RuleNode(r) in marked then {""} else {}
  {
  }

  lemma {:induction false} ExactAt(rules: Dict<Rule>, marked: seq<Node>, w: Walk, v: string, d: nat)
    requires Exact(rules, marked, w) && v in w.sets && v !in w.open && Grounded(rules, marked, v, d)
    ensures w.sets[v] == FirstOf(rules, marked, v, d)
  {
  }

  lemma {:induction false} NothingNew(rules: Dict<Rule>, marked: seq<Node>, w: Walk)
    ensures OnlyAcyclic(rules, marked, w, w)
  {
  }

  lemma {:induction false} OpenOne(rules: Dict<Rule>, marked: seq<Node>, w: Walk, v: string, d: nat)
    requires Exact(rules, marked, w) && Above(rules, marked, w.open, d)
    requires forall k: nat :: k < d ==> !Grounded(rules, marked, v, k)
    ensures Exact(rules, marked, w.(open := w.open + {v})) && Above(rules, marked, w.open + {v}, d)
  {
  }

  lemma {:induction false} ClosesExact(
    rules: Dict<Rule>, marked: seq<Node>, w: Walk, next: Walk, r: Rule, d: nat, found: set<string>
  )
    requires Grounded(rules, marked, r.name, d) && found == FirstOf(rules, marked, r.name, d)
    requires Exact(rules, marked, next) && next.open == w.open + {r.name}
    requires OnlyAcyclic(rules, marked, w.(open := next.open), next)
    ensures var end := next.(sets := next.sets[r.name := found], open := next.open - {r.name});
            Exact(rules, marked, end) && OnlyAcyclic(rules, marked, w, end)
  {
    hide FirstOf;
    var end := next.(sets := next.sets[r.name := found], open := next.open - {r.name});
    forall v, k: nat | v in end.sets && v !in end.open && Grounded(rules, marked, v, k)
      ensures end.sets[v] == FirstOf(rules, marked, v, k)
    {
      if v == r.name {
        if k <= d {
          GroundedSettles(rules, marked, v, k, d);
        } else {
          GroundedSettles(rules, marked, v, d, k);
        }
      }
    }
    assert Acyclic(rules, marked, r.name);
  }

  lemma {:induction false} WalkAltsExact(rules: Dict<Rule>, marked: seq<Node>, w: Walk, alts: seq<Alt>, d: nat)
    requires WellNamed(rules) && Exact(rules, marked, w)
    requires AltsEnd(rules, marked, alts, d) && Above(rules, marked, w.open, d)
    ensures var (found, end) := WalkAlts(rules, marked, w, alts);
            && found == AltsFirst(rules, marked, alts, d)
            && Exact(rules, marked, end) && OnlyAcyclic(rules, marked, w, end) && end.failed == w.failed
    decreases |Names(rules) - w.open|, 1, alts, 0
  {
    if alts != [] {
      WalkAltExact(rules, marked, w, alts[0], d);
      WalkAltsExact(rules, marked, WalkAlt(rules, marked, w, alts[0]).1, alts[1..], d);
    }
  }

  lemma {:induction false} WalkAltExact(rules: Dict<Rule>, marked: seq<Node>, w: Walk, a: Alt, d: nat)
    requires WellNamed(rules) && Exact(rules, marked, w)
    requires AltEnds(rules, marked, a, d) && Above(rules, marked, w.open, d)
    ensures var (found, end) := WalkAlt(rules, marked, w, a);
            && found == AltFirst(rules, marked, a, d)
            && Exact(rules, marked, end) && OnlyAcyclic(rules, marked, w, end) && end.failed == w.failed
    decreases |Names(rules) - w.open|, 1, a, 0
  {
    WalkItemsExact(rules, marked, w, a.items, {}, {}, d);
  }

  lemma {:induction false} WalkItemsExact(
    rules: Dict<Rule>, marked: seq<Node>, w: Walk, items: seq<NamedItem>,
    found: set<string>, removed: set<string>, d: nat
  )
    requires WellNamed(rules) && Exact(rules, marked, w) && found !! removed
    requires ItemsEnd(rules, marked, items, d) && Above(rules, marked, w.open, d)
    ensures var (all, end) := WalkItems(rules, marked, w, items, found, removed);
            && all == (found + Shown(rules, marked, items, d)) - (removed + Barred(rules, marked, items, d))
            && Exact(rules, marked, end) && OnlyAcyclic(rules, marked, w, end) && end.failed == w.failed
    decreases |Names(rules) - w.open|, 1, items, 0
  {
    if items != [] {
      WalkNamedItemExact(rules, marked, w, items[0], d);
      var (added, next) := WalkNamedItem(rules, marked, w, items[0]);
      var removed' := if items[0].item.NegativeLookahead? then removed + added else removed;
      var found' := (found + added) - removed';
      if PassedOver(rules, marked, items[0], d) {
        WalkItemsExact(rules, marked, next, items[1..], found', removed', d);
      }
    }
  }

  lemma {:induction false} WalkNamedItemExact(rules: Dict<Rule>, marked: seq<Node>, w: Walk, n: NamedItem, d: nat)
    requires WellNamed(rules) && Exact(rules, marked, w)
    requires NamedItemEnds(rules, marked, n, d) && Above(rules, marked, w.open, d)
    ensures var (found, end) := WalkNamedItem(rules, marked, w, n);
            && found == NamedItemFirst(rules, marked, n, d)
            && Exact(rules, marked, end) && OnlyAcyclic(rules, marked, w, end) && end.failed == w.failed
    decreases |Names(rules) - w.open|, 1, n, 0
  {
    WalkItemExact(rules, marked, w, n.item, d);
  }

  lemma {:induction false} WalkItemExact(rules: Dict<Rule>, marked: seq<Node>, w: Walk, x: Item, d: nat)
    requires WellNamed(rules) && Exact(rules, marked, w)
    requires ItemEnds(rules, marked, x, d) && Above(rules, marked, w.open, d)
    ensures var (found, end) := WalkItem(rules, marked, w, x);
            && found == ItemFirst(rules, marked, x, d)
            && Exact(rules, marked, end) && OnlyAcyclic(rules, marked, w, end) && end.failed == w.failed
    decreases |Names(rules) - w.open|, 1, x, 0
  {
    match x
    case NameLeaf(v) =>
      if Lookup(rules, v).Some? {
        NameExact(rules, marked, w, v, d - 1);
      }
    case Group(r) => WalkAltsExact(rules, marked, w, r.alts, d);
    case RhsItem(r) => WalkAltsExact(rules, marked, w, r.alts, d);
    case StringLeaf(_) | Cut | Forced(_) =>
    case Opt(n) => WalkItemExact(rules, marked, w, n, d);
    case Repeat0(n) => WalkItemExact(rules, marked, w, n, d);
    case Repeat1(n) => WalkItemExact(rules, marked, w, n, d);
    case Gather(_, n) => WalkItemExact(rules, marked, w, n, d);
    case PositiveLookahead(n) => WalkItemExact(rules, marked, w, n, d);
    case NegativeLookahead(n) => WalkItemExact(rules, marked, w, n, d);
  }

  lemma {:induction false} NameExact(rules: Dict<Rule>, marked: seq<Node>, w: Walk, v: string, d: nat)
    requires WellNamed(rules) && Exact(rules, marked, w)
    requires Grounded(rules, marked, v, d) && Above(rules, marked, w.open, d + 1)
    ensures var (found, end) := WalkItem(rules, marked, w, NameLeaf(v));
            && found == FirstOf(rules, marked, v, d)
            && Exact(rules, marked, end) && OnlyAcyclic(rules, marked, w, end) && end.failed == w.failed
    decreases |Names(rules) - w.open|, 0
  {
    assert v !in w.open;
    LookupNames(rules, v);
    if v !in w.sets {
      var m := Least(rules, marked, v, d);
      WalkRuleExact(rules, marked, w, Lookup(rules, v).value, m);
      GroundedSettles(rules, marked, v, m, d);
    }
  }

  // The rest of the walk keeps what is exact.

  ghost predicate NoneGrounded(rules: Dict<Rule>, marked: seq<Node>, open: set<string>) {
    forall v, d: nat :: v in open ==> !Grounded(rules, marked, v, d)
  }

  lemma {:induction false} WalkRuleKeeps(rules: Dict<Rule>, marked: seq<Node>, w: Walk, r: Rule)
    requires WellNamed(rules) && Has(rules, r) && Exact(rules, marked, w) && NoneGrounded(rules, marked, w.open)
    ensures Exact(rules, marked, WalkRule(rules, marked, w, r).1)
    decreases |Names(rules) - w.open|, 0, r
  {
    LookupFinds(rules, r);
    if r.name !in w.open && r.name !in w.sets {
      if d: nat :| Grounded(rules, marked, r.name, d) {
        var m := Least(rules, marked, r.name, d);
        WalkRuleExact(rules, marked, w, r, m);
      } else {
        FewerClosed(rules, w.open, r);
        WalkAltsKeeps(rules, marked, w.(open := w.open + {r.name}), r.rhs.alts);
      }
    }
  }

  lemma {:induction false} WalkAltsKeeps(rules: Dict<Rule>, marked: seq<Node>, w: Walk, alts: seq<Alt>)
    requires WellNamed(rules) && Exact(rules, marked, w) && NoneGrounded(rules, marked, w.open)
    ensures Exact(rules, marked, WalkAlts(rules, marked, w, alts).1)
    decreases |Names(rules) - w.open|, 1, alts, 0
  {
    if alts != [] {
      WalkAltKeeps(rules, marked, w, alts[0]);
      WalkAltsKeeps(rules, marked, WalkAlt(rules, marked, w, alts[0]).1, alts[1..]);
    }
  }

  lemma {:induction false} WalkAltKeeps(rules: Dict<Rule>, marked: seq<Node>, w: Walk, a: Alt)
    requires WellNamed(rules) && Exact(rules, marked, w) && NoneGrounded(rules, marked, w.open)
    ensures Exact(rules, marked, WalkAlt(rules, marked, w, a).1)
    decreases |Names(rules) - w.open|, 1, a, 0
  {
    WalkItemsKeeps(rules, marked, w, a.items, {}, {});
  }

  lemma {:induction false} WalkItemsKeeps(
    rules: Dict<Rule>, marked: seq<Node>, w: Walk, items: seq<NamedItem>, found: set<string>, removed: set<string>
  )
    requires WellNamed(rules) && Exact(rules, marked, w) && NoneGrounded(rules, marked, w.open)
    ensures Exact(rules, marked, WalkItems(rules, marked, w, items, found, removed).1)
    decreases |Names(rules) - w.open|, 1, items, 0
  {
    if items != [] {
      WalkNamedItemKeeps(rules, marked, w, items[0]);
      var (added, next) := WalkNamedItem(rules, marked, w, items[0]);
      var removed' := if items[0].item.NegativeLookahead? then removed + added else removed;
      WalkItemsKeeps(rules, marked, next, items[1..], (found + added) - removed', removed');
    }
  }

  lemma {:induction false} WalkNamedItemKeeps(rules: Dict<Rule>, marked: seq<Node>, w: Walk, n: NamedItem)
    requires WellNamed(rules) && Exact(rules, marked, w) && NoneGrounded(rules, marked, w.open)
    ensures Exact(rules, marked, WalkNamedItem(rules, marked, w, n).1)
    decreases |Names(rules) - w.open|, 1, n, 0
  {
    WalkItemKeeps(rules, marked, w, n.item);
  }

  lemma {:induction false} WalkItemKeeps(rules: Dict<Rule>, marked: seq<Node>, w: Walk, x: Item)
    requires WellNamed(rules) && Exact(rules, marked, w) && NoneGrounded(rules, marked, w.open)
    ensures Exact(rules, marked, WalkItem(rules, marked, w, x).1)
    decreases |Names(rules) - w.open|, 1, x, 0
  {
    match x
    case NameLeaf(v) => NameKeeps(rules, marked, w, v);
    case Group(r) => WalkAltsKeeps(rules, marked, w, r.alts);
    case RhsItem(r) => WalkAltsKeeps(rules, marked, w, r.alts);
    case StringLeaf(_) | Cut | Forced(_) =>
    case Opt(n) => WalkItemKeeps(rules, marked, w, n);
    case Repeat0(n) => WalkItemKeeps(rules, marked, w, n);
    case Repeat1(n) => WalkItemKeeps(rules, marked, w, n);
    case Gather(_, n) => WalkItemKeeps(rules, marked, w, n);
    case PositiveLookahead(n) => WalkItemKeeps(rules, marked, w, n);
    case NegativeLookahead(n) => WalkItemKeeps(rules, marked, w, n);
  }

  lemma {:induction false} NameKeeps(rules: Dict<Rule>, marked: seq<Node>, w: Walk, v: string)
    requires WellNamed(rules) && Exact(rules, marked, w) && NoneGrounded(rules, marked, w.open)
    ensures Exact(rules, marked, WalkItem(rules, marked, w, NameLeaf(v)).1)
    decreases |Names(rules) - w.open|, 0
  {
    var r := Lookup(rules, v);
    if r.Some? && v !in w.sets {
      LookupNames(rules, v);
      WalkRuleKeeps(rules, marked, w, r.value);
    }
  }

  lemma {:induction false} WalkRulesKeeps(rules: Dict<Rule>, marked: seq<Node>, w: Walk, todo: Dict<Rule>)
    requires WellNamed(rules) && Exact(rules, marked, w) && w.open == {}
    requires forall i :: 0 <= i < |todo| ==> Has(rules, todo[i].1)
    ensures var end := WalkRules(rules, marked, w, todo);
            && Exact(rules, marked, end)
            && (forall i :: 0 <= i < |todo| ==> todo[i].1.name in end.sets)
    decreases |todo|
  {
    if todo != [] {
      WalkRuleKeeps(rules, marked, w, todo[0].1);
      var next := WalkRule(rules, marked, w, todo[0].1).1;
      assert todo[0].1.name in next.sets;
      WalkRulesKeeps(rules, marked, next, todo[1..]);
    }
  }

  lemma {:induction false} WalkRulesInParts(
    rules: Dict<Rule>, marked: seq<Node>, w: Walk, a: Dict<Rule>, b: Dict<Rule>
  )
    requires forall i :: 0 <= i < |a| ==> Has(rules, a[i].1)
    requires forall i :: 0 <= i < |b| ==> Has(rules, b[i].1)
    ensures forall i :: 0 <= i < |a + b| ==> Has(rules, (a + b)[i].1)
    ensures WalkRules(rules, marked, w, a + b) == WalkRules(rules, marked, WalkRules(rules, marked, w, a), b)
    decreases |a|
  {
    if a == [] {
      assert a + b == b;
    } else {
      WalkRulesInParts(rules, marked, WalkRule(rules, marked, w, a[0].1).1, a[1..], b);
      assert (a + b)[1..] == a[1..] + b;
    }
  }

  lemma {:induction false} NothingOpen(rules: Dict<Rule>, marked: seq<Node>, w: Walk, todo: Dict<Rule>)
    requires forall i :: 0 <= i < |todo| ==> Has(rules, todo[i].1)
    ensures WalkRules(rules, marked, w, todo).open == w.open
  {
  }

  lemma {:induction false} StaysFinished(w: Walk, next: Walk, end: Walk, v: string)
    requires Kept(w, next) && Kept(next, end) && v in next.sets && v !in w.open
    ensures v in end.sets && end.sets[v] == next.sets[v] && (next.failed ==> end.failed) && end.open == w.open
  {
  }

  /** The loop over all rules, cut before and after the one at the index. */
  lemma {:induction false} LoopThrough(rules: Dict<Rule>, marked: seq<Node>, i: nat) returns (w: Walk, next: Walk)
    requires i < |rules|
    ensures forall k :: 0 <= k < |rules| ==> Has(rules, rules[k].1)
    ensures forall k :: 0 <= k < |rules[..i]| ==> rules[..i][k] == rules[k]
    ensures w == WalkRules(rules, marked, Start, rules[..i]) && w.open == {}
    ensures next == WalkRule(rules, marked, w, rules[i].1).1
    ensures Kept(w, next) && Kept(next, WalkRules(rules, marked, Start, rules))
  {
    hide Kept;
    var before, after := rules[..i], rules[i..];
    assert forall k :: 0 <= k < |rules| ==> Has(rules, rules[k].1);
    assert forall k :: 0 <= k < |after| ==> after[k] == rules[i + k];
    assert before + after == rules;
    w := WalkRules(rules, marked, Start, before);
    next := WalkRule(rules, marked, w, rules[i].1).1;
    WalkRulesInParts(rules, marked, Start, before, after);
    NothingOpen(rules, marked, Start, before);
    assert WalkRules(rules, marked, Start, rules) == WalkRules(rules, marked, next, after[1..]);
  }

  /**
   In every grammar, a rule whose first-position references are acyclic gets
   the set its equation gives, however recursive the other rules are.
   */
  lemma {:induction false} FirstSetsAreExact(rules: seq<Rule>, v: string, d: nat)
    requires Grounded(RuleDict(rules), ComputeNullables(RuleDict(rules)), v, d)
    ensures var dict := RuleDict(rules);
            var sets := Calculate(dict).sets;
            v in sets && sets[v] == FirstOf(dict, ComputeNullables(dict), v, d)
  {
    var dict := RuleDict(rules);
    var marked := ComputeNullables(dict);
    GrammarsAreWellNamed(rules);
    LookupNames(dict, v);
    assert forall i :: 0 <= i < |dict| ==> Has(dict, dict[i].1);
    WalkRulesKeeps(dict, marked, Start, dict);
    var r := Lookup(dict, v).value;
    var i :| 0 <= i < |dict| && dict[i].1 == r;
    assert dict[i].1.name in Calculate(dict).sets;
  }

  lemma {:induction false} WalkRulesFinish(rules: Dict<Rule>, marked: seq<Node>, w: Walk, todo: Dict<Rule>)
    requires WellNamed(rules) && Exact(rules, marked, w) && w.open == {}
    requires forall i :: 0 <= i < |todo| ==> Has(rules, todo[i].1)
    requires forall i :: 0 <= i < |todo| ==> Acyclic(rules, marked, todo[i].1.name)
    ensures WalkRules(rules, marked, w, todo).failed == w.failed
    decreases |todo|
  {
    if todo != [] {
      var r := todo[0].1;
      assert Acyclic(rules, marked, todo[0].1.name);
      if r.name !in w.sets {
        var d: nat :| Grounded(rules, marked, r.name, d);
        WalkRuleExact(rules, marked, w, r, Least(rules, marked, r.name, d));
      }
      WalkRuleKeeps(rules, marked, w, r);
      WalkRulesFinish(rules, marked, WalkRule(rules, marked, w, r).1, todo[1..]);
    }
  }

  /** When every rule is such a rule, the walk also ends without an error. */
  lemma {:induction false} GroundedGrammarsFinish(rules: seq<Rule>)
    requires forall i :: 0 <= i < |RuleDict(rules)| ==>
               Acyclic(RuleDict(rules), ComputeNullables(RuleDict(rules)), RuleDict(rules)[i].1.name)
    ensures !Calculate(RuleDict(rules)).failed
  {
    var dict := RuleDict(rules);
    GrammarsAreWellNamed(rules);
    assert forall i :: 0 <= i < |dict| ==> Has(dict, dict[i].1);
    forall i | 0 <= i < |dict| ensures Acyclic(dict, ComputeNullables(dict), dict[i].1.name) {
      assert dict[i].1 == RuleDict(rules)[i].1;
    }
    WalkRulesFinish(dict, ComputeNullables(dict), Start, dict);
  }
}
