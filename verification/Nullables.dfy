/**
 NullableVisitor.php and `computeNullables`: a depth-first walk that marks the
 rules and items it finds able to match nothing. Arrays searched with `in_array`
 compare by value, as the datatypes here do.
 */
module Nullables {
  import opened Wrappers
  import opened GrammarTree

  datatype Node = RuleNode(rule: Rule) | ItemNode(item: NamedItem)

  datatype Marks = Marks(visited: seq<Rule>, nullables: seq<Node>)

  function Lookup(rules: Dict<Rule>, name: string): (r: Option<Rule>)
    ensures r.Some? ==> Has(rules, r.value)
  {
    if rules == [] then None
    else if rules[0].0 == name then assert rules[0].1 == rules[0].1; Some(rules[0].1)
    else
      var r := Lookup(rules[1..], name);
      assert r.Some? ==> Has(rules, r.value) by {
        if r.Some? {
          var i :| 0 <= i < |rules[1..]| && rules[1..][i].1 == r.value;
          assert rules[i + 1].1 == r.value;
        }
      }
      r
  }

  predicate Has(rules: Dict<Rule>, r: Rule) {
    exists i :: 0 <= i < |rules| && rules[i].1 == r
  }

  /** The rules still to be visited, which bounds the walk. */
  ghost function Unvisited(rules: Dict<Rule>, visited: seq<Rule>): set<Rule> {
    (set i | 0 <= i < |rules| :: rules[i].1) - (set r | r in visited)
  }

  predicate Grows(a: Marks, b: Marks) {
    && (forall r :: r in a.visited ==> r in b.visited)
    && (forall n :: n in a.nullables ==> n in b.nullables)
  }

  lemma {:induction false} FewerUnvisited(rules: Dict<Rule>, a: seq<Rule>, b: seq<Rule>)
    requires forall r :: r in a ==> r in b
    ensures |Unvisited(rules, b)| <= |Unvisited(rules, a)|
    ensures (exists r :: Has(rules, r) && r in b && r !in a) ==> |Unvisited(rules, b)| < |Unvisited(rules, a)|
  {
    var ua, ub := Unvisited(rules, a), Unvisited(rules, b);
    SmallerSet(ub, ua);
    if r :| Has(rules, r) && r in b && r !in a {
      var i :| 0 <= i < |rules| && rules[i].1 == r;
      assert r in ua && r !in ub;
    }
  }

  // The visit methods, with the marks they change passed along.

  function VisitRule(rules: Dict<Rule>, m: Marks, r: Rule): (o: (bool, Marks))
    requires Has(rules, r)
    ensures Grows(m, o.1)
    decreases |Unvisited(rules, m.visited)|, 0, r
  {
    if r in m.visited then (false, m)
    else
      FewerUnvisited(rules, m.visited, m.visited + [r]);
      var (nullable, next) := VisitAlts(rules, m.(visited := m.visited + [r]), r.rhs.alts);
      var end := if nullable then next.(nullables := next.nullables + [RuleNode(r)]) else next;
      (RuleNode(r) in end.nullables, end)
  }

  function VisitAlts(rules: Dict<Rule>, m: Marks, alts: seq<Alt>): (o: (bool, Marks))
    ensures Grows(m, o.1)
    decreases |Unvisited(rules, m.visited)|, 1, alts, 0
  {
    if alts == [] then (false, m)
    else
      var (nullable, next) := VisitAlt(rules, m, alts[0]);
      if nullable then (true, next)
      else FewerUnvisited(rules, m.visited, next.visited); VisitAlts(rules, next, alts[1..])
  }

  function VisitAlt(rules: Dict<Rule>, m: Marks, a: Alt): (o: (bool, Marks))
    ensures Grows(m, o.1)
    decreases |Unvisited(rules, m.visited)|, 1, a, 0
  {
    VisitItems(rules, m, a.items)
  }

  function VisitItems(rules: Dict<Rule>, m: Marks, items: seq<NamedItem>): (o: (bool, Marks))
    ensures Grows(m, o.1)
    decreases |Unvisited(rules, m.visited)|, 1, items, 0
  {
    if items == [] then (true, m)
    else
      var (nullable, next) := VisitNamedItem(rules, m, items[0]);
      if !nullable then (false, next)
      else FewerUnvisited(rules, m.visited, next.visited); VisitItems(rules, next, items[1..])
  }

  function VisitNamedItem(rules: Dict<Rule>, m: Marks, n: NamedItem): (o: (bool, Marks))
    ensures Grows(m, o.1)
    decreases |Unvisited(rules, m.visited)|, 1, n, 0
  {
    var (nullable, next) := VisitItem(rules, m, n.item);
    var end := if nullable then next.(nullables := next.nullables + [ItemNode(n)]) else next;
    (ItemNode(n) in end.nullables, end)
  }

  function VisitItem(rules: Dict<Rule>, m: Marks, x: Item): (o: (bool, Marks))
    ensures Grows(m, o.1)
    decreases |Unvisited(rules, m.visited)|, 1, x, 0
  {
    match x
    case NameLeaf(v) =>
      var r := Lookup(rules, v);
      if r.Some? then VisitRule(rules, m, r.value) else (false, m)
    case StringLeaf(v) => (v == "", m)
    case Group(r) => VisitAlts(rules, m, r.alts)
    case RhsItem(r) => VisitAlts(rules, m, r.alts)
    case Opt(_) => (true, m)
    case Repeat0(_) => (true, m)
    case Forced(_) => (true, m)
    // Lookaheads reach genericVisit, which visits the node and returns null.
    case PositiveLookahead(n) => (false, VisitItem(rules, m, n).1)
    case NegativeLookahead(n) => (false, VisitItem(rules, m, n).1)
    case _ => (false, m)
  }

  function VisitRules(rules: Dict<Rule>, m: Marks, todo: Dict<Rule>): (o: Marks)
    requires forall i :: 0 <= i < |todo| ==> Has(rules, todo[i].1)
    ensures Grows(m, o)
    ensures forall i :: 0 <= i < |todo| ==> todo[i].1 in o.visited
    decreases |todo|
  {
    if todo == [] then m
    else
      var next := VisitRule(rules, m, todo[0].1).1;
      assert todo[0].1 in next.visited;
      VisitRules(rules, next, todo[1..])
  }

  /** computeNullables */
  function ComputeNullables(rules: Dict<Rule>): seq<Node> {
    assert forall i :: 0 <= i < |rules| ==> Has(rules, rules[i].1);
    VisitRules(rules, Marks([], []), rules).nullables
  }

  class NullableVisitor {
    const rules: Dict<Rule>
    var visited: seq<Rule>
    var nullables: seq<Node>

    constructor (rules: Dict<Rule>)
      ensures this.rules == rules && Now() == Marks([], [])
    {
      this.rules := rules;
      visited, nullables := [], [];
    }

    function Now(): Marks
      reads this
    {
      Marks(visited, nullables)
    }

    method OfRule(r: Rule) returns (yes: bool)
      requires Has(rules, r)
      modifies this
      ensures (yes, Now()) == VisitRule(rules, old(Now()), r)
      decreases |Unvisited(rules, visited)|, 0, r
    {
      if r in visited {
        return false;
      }
      FewerUnvisited(rules, visited, visited + [r]);
      visited := visited + [r];
      var nullable := OfRhs(r.rhs);
      if nullable {
        nullables := nullables + [RuleNode(r)];
      }
      return RuleNode(r) in nullables;
    }

    method OfRhs(r: Rhs) returns (yes: bool)
      modifies this
      ensures (yes, Now()) == VisitAlts(rules, old(Now()), r.alts)
      decreases |Unvisited(rules, visited)|, 1, r, 1
    {
      var i := 0;
      while i < |r.alts|
        invariant i <= |r.alts| && Grows(old(Now()), Now())
        invariant VisitAlts(rules, Now(), r.alts[i..]) == VisitAlts(rules, old(Now()), r.alts)
      {
        FewerUnvisited(rules, old(visited), visited);
        assert r.alts[i..][0] == r.alts[i] && r.alts[i..][1..] == r.alts[i + 1..];
        var nullable := OfAlt(r.alts[i]);
        if nullable {
          return true;
        }
        i := i + 1;
      }
      return false;
    }

    method OfAlt(a: Alt) returns (yes: bool)
      modifies this
      ensures (yes, Now()) == VisitAlt(rules, old(Now()), a)
      decreases |Unvisited(rules, visited)|, 1, a, 1
    {
      var i := 0;
      while i < |a.items|
        invariant i <= |a.items| && Grows(old(Now()), Now())
        invariant VisitItems(rules, Now(), a.items[i..]) == VisitItems(rules, old(Now()), a.items)
      {
        FewerUnvisited(rules, old(visited), visited);
        assert a.items[i..][0] == a.items[i] && a.items[i..][1..] == a.items[i + 1..];
        var nullable := OfNamedItem(a.items[i]);
        if !nullable {
          return false;
        }
        i := i + 1;
      }
      return true;
    }

    method OfNamedItem(n: NamedItem) returns (yes: bool)
      modifies this
      ensures (yes, Now()) == VisitNamedItem(rules, old(Now()), n)
      decreases |Unvisited(rules, visited)|, 1, n, 1
    {
      var nullable := OfItem(n.item);
      if nullable {
        nullables := nullables + [ItemNode(n)];
      }
      return ItemNode(n) in nullables;
    }

    method OfItem(x: Item) returns (yes: bool)
      modifies this
      ensures (yes, Now()) == VisitItem(rules, old(Now()), x)
      decreases |Unvisited(rules, visited)|, 1, x, 1
    {
      match x
      case NameLeaf(v) =>
        var r := Lookup(rules, v);
        if r.Some? {
          yes := OfRule(r.value);
        } else {
          yes := false;
        }
      case StringLeaf(v) => yes := v == "";
      case Group(r) => yes := OfRhs(r);
      case RhsItem(r) => yes := OfRhs(r);
      case Opt(_) => yes := true;
      case Repeat0(_) => yes := true;
      case Forced(_) => yes := true;
      case PositiveLookahead(n) =>
        var _ := OfItem(n);
        yes := false;
      case NegativeLookahead(n) =>
        var _ := OfItem(n);
        yes := false;
      case _ => yes := false;
    }
  }

  method ComputeAll(rules: Dict<Rule>) returns (nullables: seq<Node>)
    ensures nullables == ComputeNullables(rules)
  {
    assert forall k :: 0 <= k < |rules| ==> Has(rules, rules[k].1);
    var visitor := new NullableVisitor(rules);
    var i := 0;
    while i < |rules|
      invariant i <= |rules| && visitor.rules == rules
      invariant VisitRules(rules, visitor.Now(), rules[i..]) == VisitRules(rules, Marks([], []), rules)
    {
      assert rules[i..][0] == rules[i] && rules[i..][1..] == rules[i + 1..];
      var _ := visitor.OfRule(rules[i].1);
      i := i + 1;
    }
    return visitor.nullables;
  }

  // What can match nothing: derivations that go through at most `depth` rules.

  ghost predicate AltsDerive(rules: Dict<Rule>, alts: seq<Alt>, depth: nat)
    decreases depth, alts
  {
    alts != [] && (AltDerives(rules, alts[0], depth) || AltsDerive(rules, alts[1..], depth))
  }

  ghost predicate AltDerives(rules: Dict<Rule>, a: Alt, depth: nat)
    decreases depth, a
  {
    ItemsDerive(rules, a.items, depth)
  }

  ghost predicate ItemsDerive(rules: Dict<Rule>, items: seq<NamedItem>, depth: nat)
    decreases depth, items
  {
    items == [] || (NamedItemDerives(rules, items[0], depth) && ItemsDerive(rules, items[1..], depth))
  }

  ghost predicate NamedItemDerives(rules: Dict<Rule>, n: NamedItem, depth: nat)
    decreases depth, n
  {
    ItemDerives(rules, n.item, depth)
  }

  ghost predicate ItemDerives(rules: Dict<Rule>, x: Item, depth: nat)
    decreases depth, x
  {
    match x
    case NameLeaf(v) =>
      depth > 0 && Lookup(rules, v).Some? && AltsDerive(rules, Lookup(rules, v).value.rhs.alts, depth - 1)
    case StringLeaf(v) => v == ""
    case Group(r) => AltsDerive(rules, r.alts, depth)
    case RhsItem(r) => AltsDerive(rules, r.alts, depth)
    case Opt(_) => true
    case Repeat0(_) => true
    case Forced(_) => true
    case _ => false
  }

  ghost predicate Derives(rules: Dict<Rule>, n: Node, depth: nat) {
    if n.RuleNode? then AltsDerive(rules, n.rule.rhs.alts, depth) else NamedItemDerives(rules, n.item, depth)
  }

  lemma {:induction false} AltsDeeper(rules: Dict<Rule>, alts: seq<Alt>, d: nat, e: nat)
    requires AltsDerive(rules, alts, d) && d <= e
    ensures AltsDerive(rules, alts, e)
    decreases d, alts
  {
    if AltDerives(rules, alts[0], d) {
      AltDeeper(rules, alts[0], d, e);
    } else {
      AltsDeeper(rules, alts[1..], d, e);
    }
  }

  lemma {:induction false} AltDeeper(rules: Dict<Rule>, a: Alt, d: nat, e: nat)
    requires AltDerives(rules, a, d) && d <= e
    ensures AltDerives(rules, a, e)
    decreases d, a
  {
    ItemsDeeper(rules, a.items, d, e);
  }

  lemma {:induction false} ItemsDeeper(rules: Dict<Rule>, items: seq<NamedItem>, d: nat, e: nat)
    requires ItemsDerive(rules, items, d) && d <= e
    ensures ItemsDerive(rules, items, e)
    decreases d, items
  {
    if items != [] {
      NamedItemDeeper(rules, items[0], d, e);
      ItemsDeeper(rules, items[1..], d, e);
    }
  }

  lemma {:induction false} NamedItemDeeper(rules: Dict<Rule>, n: NamedItem, d: nat, e: nat)
    requires NamedItemDerives(rules, n, d) && d <= e
    ensures NamedItemDerives(rules, n, e)
    decreases d, n
  {
    ItemDeeper(rules, n.item, d, e);
  }

  lemma {:induction false} ItemDeeper(rules: Dict<Rule>, x: Item, d: nat, e: nat)
    requires ItemDerives(rules, x, d) && d <= e
    ensures ItemDerives(rules, x, e)
    decreases d, x
  {
    match x
    case NameLeaf(v) => AltsDeeper(rules, Lookup(rules, v).value.rhs.alts, d - 1, e - 1);
    case Group(r) => AltsDeeper(rules, r.alts, d, e);
    case RhsItem(r) => AltsDeeper(rules, r.alts, d, e);
    case _ =>
  }

  // Soundness

  ghost predicate Sound(rules: Dict<Rule>, m: Marks) {
    forall n :: n in m.nullables ==> exists d: nat :: Derives(rules, n, d)
  }

  lemma {:induction false} NodeDerivation(rules: Dict<Rule>, n: Node, d: nat)
    requires Derives(rules, n, d)
    ensures n.RuleNode? ==> AltsDerive(rules, n.rule.rhs.alts, d)
    ensures n.ItemNode? ==> NamedItemDerives(rules, n.item, d)
  {
  }

  lemma {:induction false} VisitRuleSound(rules: Dict<Rule>, m: Marks, r: Rule)
    requires Has(rules, r) && Sound(rules, m)
    ensures var (yes, end) := VisitRule(rules, m, r);
            Sound(rules, end) && (yes ==> exists d: nat :: AltsDerive(rules, r.rhs.alts, d))
    decreases |Unvisited(rules, m.visited)|, 0, r
  {
    if r !in m.visited {
      FewerUnvisited(rules, m.visited, m.visited + [r]);
      VisitAltsSound(rules, m.(visited := m.visited + [r]), r.rhs.alts);
      var (nullable, next) := VisitAlts(rules, m.(visited := m.visited + [r]), r.rhs.alts);
      if nullable {
        var d: nat :| AltsDerive(rules, r.rhs.alts, d);
        assert Derives(rules, RuleNode(r), d);
      }
      var end := VisitRule(rules, m, r).1;
      if RuleNode(r) in end.nullables {
        var d: nat :| Derives(rules, RuleNode(r), d);
        NodeDerivation(rules, RuleNode(r), d);
      }
    }
  }

  lemma {:induction false} VisitAltsSound(rules: Dict<Rule>, m: Marks, alts: seq<Alt>)
    requires Sound(rules, m)
    ensures var (yes, end) := VisitAlts(rules, m, alts);
            Sound(rules, end) && (yes ==> exists d: nat :: AltsDerive(rules, alts, d))
    decreases |Unvisited(rules, m.visited)|, 1, alts, 0
  {
    if alts != [] {
      VisitAltSound(rules, m, alts[0]);
      var (nullable, next) := VisitAlt(rules, m, alts[0]);
      if nullable {
        var d: nat :| AltDerives(rules, alts[0], d);
        assert AltsDerive(rules, alts, d);
      } else {
        FewerUnvisited(rules, m.visited, next.visited);
        VisitAltsSound(rules, next, alts[1..]);
        if VisitAlts(rules, next, alts[1..]).0 {
          var d: nat :| AltsDerive(rules, alts[1..], d);
          assert AltsDerive(rules, alts, d);
        }
      }
    }
  }

  lemma {:induction false} VisitAltSound(rules: Dict<Rule>, m: Marks, a: Alt)
    requires Sound(rules, m)
    ensures var (yes, end) := VisitAlt(rules, m, a);
            Sound(rules, end) && (yes ==> exists d: nat :: AltDerives(rules, a, d))
    decreases |Unvisited(rules, m.visited)|, 1, a, 0
  {
    VisitItemsSound(rules, m, a.items);
    if VisitAlt(rules, m, a).0 {
      var d: nat :| ItemsDerive(rules, a.items, d);
      assert AltDerives(rules, a, d);
    }
  }

  lemma {:induction false} VisitItemsSound(rules: Dict<Rule>, m: Marks, items: seq<NamedItem>)
    requires Sound(rules, m)
    ensures var (yes, end) := VisitItems(rules, m, items);
            Sound(rules, end) && (yes ==> exists d: nat :: ItemsDerive(rules, items, d))
    decreases |Unvisited(rules, m.visited)|, 1, items, 0
  {
    if items == [] {
      assert ItemsDerive(rules, items, 0);
    } else {
      VisitNamedItemSound(rules, m, items[0]);
      var (nullable, next) := VisitNamedItem(rules, m, items[0]);
      if nullable {
        FewerUnvisited(rules, m.visited, next.visited);
        VisitItemsSound(rules, next, items[1..]);
        if VisitItems(rules, next, items[1..]).0 {
          var d: nat :| NamedItemDerives(rules, items[0], d);
          var e: nat :| ItemsDerive(rules, items[1..], e);
          NamedItemDeeper(rules, items[0], d, d + e);
          ItemsDeeper(rules, items[1..], e, d + e);
          assert ItemsDerive(rules, items, d + e);
        }
      }
    }
  }

  lemma {:induction false} VisitNamedItemSound(rules: Dict<Rule>, m: Marks, n: NamedItem)
    requires Sound(rules, m)
    ensures var (yes, end) := VisitNamedItem(rules, m, n);
            Sound(rules, end) && (yes ==> exists d: nat :: NamedItemDerives(rules, n, d))
    decreases |Unvisited(rules, m.visited)|, 1, n, 0
  {
    VisitItemSound(rules, m, n.item);
    if VisitItem(rules, m, n.item).0 {
      var d: nat :| ItemDerives(rules, n.item, d);
      assert NamedItemDerives(rules, n, d);
      assert Derives(rules, ItemNode(n), d);
    }
    if VisitNamedItem(rules, m, n).0 {
      var d: nat :| Derives(rules, ItemNode(n), d);
      NodeDerivation(rules, ItemNode(n), d);
    }
  }

  lemma {:induction false} VisitItemSound(rules: Dict<Rule>, m: Marks, x: Item)
    requires Sound(rules, m)
    ensures var (yes, end) := VisitItem(rules, m, x);
            Sound(rules, end) && (yes ==> exists d: nat :: ItemDerives(rules, x, d))
    decreases |Unvisited(rules, m.visited)|, 1, x, 0
  {
    match x
    case NameLeaf(v) =>
      var r := Lookup(rules, v);
      if r.Some? {
        VisitRuleSound(rules, m, r.value);
        if VisitItem(rules, m, x).0 {
          var d: nat :| AltsDerive(rules, r.value.rhs.alts, d);
          assert ItemDerives(rules, x, d + 1);
        }
      }
    case Group(r) => GroupSound(rules, m, x, r);
    case RhsItem(r) => GroupSound(rules, m, x, r);
    case PositiveLookahead(n) => VisitItemSound(rules, m, n);
    case NegativeLookahead(n) => VisitItemSound(rules, m, n);
    case StringLeaf(_) | Opt(_) | Repeat0(_) | Forced(_) =>
      assert VisitItem(rules, m, x).0 ==> ItemDerives(rules, x, 0);
    case Repeat1(_) | Gather(_, _) | Cut =>
  }

  lemma {:induction false} GroupSound(rules: Dict<Rule>, m: Marks, x: Item, r: Rhs)
    requires Sound(rules, m) && (x == Group(r) || x == RhsItem(r))
    ensures var (yes, end) := VisitItem(rules, m, x);
            Sound(rules, end) && (yes ==> exists d: nat :: ItemDerives(rules, x, d))
    decreases |Unvisited(rules, m.visited)|, 1, r, 1
  {
    VisitAltsSound(rules, m, r.alts);
    if VisitItem(rules, m, x).0 {
      var d: nat :| AltsDerive(rules, r.alts, d);
      assert ItemDerives(rules, x, d);
    }
  }

  lemma {:induction false} VisitRulesSound(rules: Dict<Rule>, m: Marks, todo: Dict<Rule>)
    requires Sound(rules, m) && forall i :: 0 <= i < |todo| ==> Has(rules, todo[i].1)
    ensures Sound(rules, VisitRules(rules, m, todo))
    decreases |todo|
  {
    if todo != [] {
      VisitRuleSound(rules, m, todo[0].1);
      VisitRulesSound(rules, VisitRule(rules, m, todo[0].1).1, todo[1..]);
    }
  }

  /** Whatever is marked, in any grammar however recursive, can match nothing. */
  lemma {:induction false} NullablesAreSound(rules: Dict<Rule>, n: Node)
    requires n in ComputeNullables(rules)
    ensures exists d: nat :: Derives(rules, n, d)
  {
    assert forall i :: 0 <= i < |rules| ==> Has(rules, rules[i].1);
    VisitRulesSound(rules, Marks([], []), rules);
  }

  // Completeness for derivations that go through no rule

  /** Every rule first visited between the two marks that derives nothing by itself is marked. */
  ghost predicate Caught(rules: Dict<Rule>, a: Marks, b: Marks) {
    forall r :: r in b.visited && r !in a.visited && AltsDerive(rules, r.rhs.alts, 0) ==> RuleNode(r) in b.nullables
  }

  lemma {:induction false} CaughtTwice(rules: Dict<Rule>, a: Marks, b: Marks, c: Marks)
    requires Caught(rules, a, b) && Caught(rules, b, c) && Grows(b, c)
    ensures Caught(rules, a, c)
  {
  }

  lemma {:induction false} VisitRuleCatches(rules: Dict<Rule>, m: Marks, r: Rule)
    requires Has(rules, r)
    ensures Caught(rules, m, VisitRule(rules, m, r).1)
    decreases |Unvisited(rules, m.visited)|, 0, r
  {
    if r !in m.visited {
      FewerUnvisited(rules, m.visited, m.visited + [r]);
      VisitAltsCatches(rules, m.(visited := m.visited + [r]), r.rhs.alts);
    }
  }

  lemma {:induction false} VisitAltsCatches(rules: Dict<Rule>, m: Marks, alts: seq<Alt>)
    ensures var (yes, end) := VisitAlts(rules, m, alts);
            Caught(rules, m, end) && (AltsDerive(rules, alts, 0) ==> yes)
    decreases |Unvisited(rules, m.visited)|, 1, alts, 0
  {
    if alts != [] {
      VisitAltCatches(rules, m, alts[0]);
      var (nullable, next) := VisitAlt(rules, m, alts[0]);
      if !nullable {
        FewerUnvisited(rules, m.visited, next.visited);
        VisitAltsCatches(rules, next, alts[1..]);
        CaughtTwice(rules, m, next, VisitAlts(rules, m, alts).1);
      }
    }
  }

  lemma {:induction false} VisitAltCatches(rules: Dict<Rule>, m: Marks, a: Alt)
    ensures var (yes, end) := VisitAlt(rules, m, a);
            Caught(rules, m, end) && (AltDerives(rules, a, 0) ==> yes)
    decreases |Unvisited(rules, m.visited)|, 1, a, 0
  {
    VisitItemsCatches(rules, m, a.items);
  }

  lemma {:induction false} VisitItemsCatches(rules: Dict<Rule>, m: Marks, items: seq<NamedItem>)
    ensures var (yes, end) := VisitItems(rules, m, items);
            Caught(rules, m, end) && (ItemsDerive(rules, items, 0) ==> yes)
    decreases |Unvisited(rules, m.visited)|, 1, items, 0
  {
    if items != [] {
      VisitNamedItemCatches(rules, m, items[0]);
      var (nullable, next) := VisitNamedItem(rules, m, items[0]);
      if nullable {
        FewerUnvisited(rules, m.visited, next.visited);
        VisitItemsCatches(rules, next, items[1..]);
        CaughtTwice(rules, m, next, VisitItems(rules, m, items).1);
      }
    }
  }

  lemma {:induction false} VisitNamedItemCatches(rules: Dict<Rule>, m: Marks, n: NamedItem)
    ensures var (yes, end) := VisitNamedItem(rules, m, n);
            Caught(rules, m, end) && (NamedItemDerives(rules, n, 0) ==> yes)
    decreases |Unvisited(rules, m.visited)|, 1, n, 0
  {
    VisitItemCatches(rules, m, n.item);
  }

  lemma {:induction false} VisitItemCatches(rules: Dict<Rule>, m: Marks, x: Item)
    ensures var (yes, end) := VisitItem(rules, m, x);
            Caught(rules, m, end) && (ItemDerives(rules, x, 0) ==> yes)
    decreases |Unvisited(rules, m.visited)|, 1, x, 0
  {
    match x
    case NameLeaf(v) =>
      if Lookup(rules, v).Some? {
        VisitRuleCatches(rules, m, Lookup(rules, v).value);
      }
    case Group(r) => VisitAltsCatches(rules, m, r.alts);
    case RhsItem(r) => VisitAltsCatches(rules, m, r.alts);
    case PositiveLookahead(n) => VisitItemCatches(rules, m, n);
    case NegativeLookahead(n) => VisitItemCatches(rules, m, n);
    case _ =>
  }

  lemma {:induction false} VisitRulesCatches(rules: Dict<Rule>, m: Marks, todo: Dict<Rule>)
    requires forall i :: 0 <= i < |todo| ==> Has(rules, todo[i].1)
    ensures Caught(rules, m, VisitRules(rules, m, todo))
    decreases |todo|
  {
    if todo != [] {
      var next := VisitRule(rules, m, todo[0].1).1;
      VisitRuleCatches(rules, m, todo[0].1);
      VisitRulesCatches(rules, next, todo[1..]);
      CaughtTwice(rules, m, next, VisitRules(rules, m, todo));
    }
  }

  /** A rule that can match nothing without going through a rule is marked. */
  lemma {:induction false} NullablesAreCompleteAtDepthZero(rules: Dict<Rule>, r: Rule)
    requires Has(rules, r) && AltsDerive(rules, r.rhs.alts, 0)
    ensures RuleNode(r) in ComputeNullables(rules)
  {
    assert forall i :: 0 <= i < |rules| ==> Has(rules, rules[i].1);
    VisitRulesCatches(rules, Marks([], []), rules);
  }

  ghost predicate Nullable(rules: Dict<Rule>, r: Rule) {
    exists d: nat :: AltsDerive(rules, r.rhs.alts, d)
  }

  /** Where the rule needs no other rule to match nothing, it is marked exactly when it is nullable. */
  lemma {:induction false} NullablesAreExact(rules: Dict<Rule>, r: Rule)
    requires Has(rules, r) && (Nullable(rules, r) ==> AltsDerive(rules, r.rhs.alts, 0))
    ensures RuleNode(r) in ComputeNullables(rules) <==> Nullable(rules, r)
  {
    if RuleNode(r) in ComputeNullables(rules) {
      NullablesAreSound(rules, RuleNode(r));
      var d: nat :| Derives(rules, RuleNode(r), d);
      NodeDerivation(rules, RuleNode(r), d);
    }
    if Nullable(rules, r) {
      NullablesAreCompleteAtDepthZero(rules, r);
    }
  }

  const SomeOption := NamedItem(None, Opt(StringLeaf("'x'")), None)
  const SomeReference := NamedItem(None, NameLeaf("a"), None)
  const OptionRule := Rule("a", None, Rhs([Alt([SomeOption], None)]))
  const ReferenceRule := Rule("b", None, Rhs([Alt([SomeReference], None)]))
  const TwoRules: Dict<Rule> := [("a", OptionRule), ("b", ReferenceRule)]

  lemma {:induction false} OptionRuleIsMarked()
    ensures Has(TwoRules, OptionRule)
    ensures VisitRule(TwoRules, Marks([], []), OptionRule)
         == (true, Marks([OptionRule], [ItemNode(SomeOption), RuleNode(OptionRule)]))
  {
    assert TwoRules[0].1 == OptionRule;
    var m1 := Marks([OptionRule], []);
    var m2 := Marks([OptionRule], [ItemNode(SomeOption)]);
    assert [] + [OptionRule] == [OptionRule] && m1.nullables + [ItemNode(SomeOption)] == m2.nullables;
    assert VisitNamedItem(TwoRules, m1, SomeOption) == (true, m2);
    assert [SomeOption][1..] == [];
    assert VisitItems(TwoRules, m1, [SomeOption]) == (true, m2);
    assert VisitAlt(TwoRules, m1, OptionRule.rhs.alts[0]) == (true, m2);
    assert VisitAlts(TwoRules, m1, OptionRule.rhs.alts) == (true, m2);
    assert m2.nullables + [RuleNode(OptionRule)] == [ItemNode(SomeOption), RuleNode(OptionRule)];
  }

  lemma {:induction false} ReferenceRuleIsNotMarked(m: Marks)
    requires m.visited == [OptionRule] && m.nullables == [ItemNode(SomeOption), RuleNode(OptionRule)]
    ensures Has(TwoRules, ReferenceRule)
    ensures VisitRule(TwoRules, m, ReferenceRule) == (false, m.(visited := [OptionRule, ReferenceRule]))
  {
    assert TwoRules[1].1 == ReferenceRule;
    var m4 := m.(visited := [OptionRule, ReferenceRule]);
    assert m.visited + [ReferenceRule] == m4.visited;
    assert Lookup(TwoRules, "a") == Some(OptionRule);
    assert VisitItem(TwoRules, m4, SomeReference.item) == (false, m4);
    assert VisitNamedItem(TwoRules, m4, SomeReference) == (false, m4);
    assert VisitItems(TwoRules, m4, [SomeReference]) == (false, m4);
    assert VisitAlt(TwoRules, m4, ReferenceRule.rhs.alts[0]) == (false, m4);
    assert ReferenceRule.rhs.alts[1..] == [];
    assert VisitAlts(TwoRules, m4, ReferenceRule.rhs.alts) == (false, m4);
  }

  lemma {:induction false} ReferenceRuleDerivesNothing()
    ensures AltsDerive(TwoRules, ReferenceRule.rhs.alts, 1)
  {
    assert Lookup(TwoRules, "a") == Some(OptionRule);
    assert NamedItemDerives(TwoRules, SomeOption, 0);
    assert ItemsDerive(TwoRules, [SomeOption], 0);
    assert AltDerives(TwoRules, OptionRule.rhs.alts[0], 0);
    assert AltsDerive(TwoRules, OptionRule.rhs.alts, 0);
    assert NamedItemDerives(TwoRules, SomeReference, 1);
    assert ItemsDerive(TwoRules, [SomeReference], 1);
    assert AltDerives(TwoRules, ReferenceRule.rhs.alts[0], 1);
  }

  /**
   A rule that needs another one may be missed: in `a: ['x']`, `b: a`, the rule
   `b` can match nothing, but `a` has been visited when `b` asks for it.
   */
  lemma {:induction false} NullablesMissDepthOne()
    ensures Has(TwoRules, ReferenceRule) && AltsDerive(TwoRules, ReferenceRule.rhs.alts, 1)
    ensures RuleNode(ReferenceRule) !in ComputeNullables(TwoRules)
  {
    hide VisitRule, AltsDerive, Has;
    OptionRuleIsMarked();
    var m := Marks([OptionRule], [ItemNode(SomeOption), RuleNode(OptionRule)]);
    ReferenceRuleIsNotMarked(m);
    ReferenceRuleDerivesNothing();
    assert TwoRules[1..] == [("b", ReferenceRule)] && TwoRules[1..][1..] == [];
    assert VisitRules(TwoRules, m, TwoRules[1..]) == m.(visited := [OptionRule, ReferenceRule]);
    assert VisitRules(TwoRules, Marks([], []), TwoRules) == m.(visited := [OptionRule, ReferenceRule]);
    assert ComputeNullables(TwoRules) == m.nullables;
  }
}
