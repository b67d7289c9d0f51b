/**
 `Rule::flatten` of Grammar.php: a rule that is a single parenthesised group is
 replaced by the alternatives of the group.
 */
module Flattening {
  import opened Wrappers
  import opened GrammarTree
  import opened Nullables
  import opened FirstEquations

  predicate IsLoop(r: Rule) {
    "_loop" <= r.name
  }

  function Flatten(r: Rule): Rhs {
    if
      && !IsLoop(r) && |r.rhs.alts| == 1 && |r.rhs.alts[0].items| == 1
      && r.rhs.alts[0].items[0].item.Group?
    then r.rhs.alts[0].items[0].item.rhs
    else r.rhs
  }

  lemma {:induction false} OneItem(r: Rule)
    requires |r.rhs.alts| == 1 && |r.rhs.alts[0].items| == 1
    ensures r.rhs.alts[1..] == [] && r.rhs.alts[0].items[1..] == []
  {
  }

  /** The flattened rule can match nothing exactly when the rule can, through as many rules. */
  lemma {:induction false} FlattenKeepsDerivations(rules: Dict<Rule>, r: Rule, depth: nat)
    ensures AltsDerive(rules, Flatten(r).alts, depth) <==> AltsDerive(rules, r.rhs.alts, depth)
  {
    if Flatten(r) != r.rhs {
      OneItem(r);
      var alt := r.rhs.alts[0];
      var n := alt.items[0];
      assert !AltsDerive(rules, [], depth) && ItemsDerive(rules, [], depth);
      assert AltsDerive(rules, r.rhs.alts, depth) <==> AltDerives(rules, alt, depth);
      assert AltDerives(rules, alt, depth) <==> ItemsDerive(rules, alt.items, depth);
      assert ItemsDerive(rules, alt.items, depth) <==> NamedItemDerives(rules, n, depth);
      assert NamedItemDerives(rules, n, depth) <==> ItemDerives(rules, n.item, depth);
    }
  }

  lemma {:induction false} NoEmptyTerminal(rules: Dict<Rule>, marked: seq<Node>, alts: seq<Alt>, depth: nat)
    ensures "" !in AltsFirst(rules, marked, alts, depth)
    decreases |alts|
  {
    if alts != [] {
      NoEmptyTerminal(rules, marked, alts[1..], depth);
    }
  }

  /** It has the same first terminals, at every depth. */
  lemma {:induction false} FlattenKeepsFirsts(rules: Dict<Rule>, marked: seq<Node>, r: Rule, depth: nat)
    ensures AltsFirst(rules, marked, Flatten(r).alts, depth) == AltsFirst(rules, marked, r.rhs.alts, depth)
  {
    if Flatten(r) != r.rhs {
      OneItem(r);
      var alt := r.rhs.alts[0];
      var n := alt.items[0];
      var firsts := AltsFirst(rules, marked, n.item.rhs.alts, depth);
      NoEmptyTerminal(rules, marked, n.item.rhs.alts, depth);
      assert AltsFirst(rules, marked, [], depth) == {};
      assert Shown(rules, marked, [], depth) == {} && Barred(rules, marked, [], depth) == {};
      assert NamedItemFirst(rules, marked, n, depth) == firsts;
      assert Shown(rules, marked, alt.items, depth) == firsts && Barred(rules, marked, alt.items, depth) == {};
      assert AltFirst(rules, marked, alt, depth) == firsts - {} - {""} == firsts;
    }
  }

  // A whole grammar flattened, as the parser generated from it is

  function Flattened(r: Rule): Rule {
    r.(rhs := Flatten(r))
  }

  function FlattenAll(rules: Dict<Rule>): (f: Dict<Rule>)
    ensures |f| == |rules|
  {
    if rules == [] then [] else [(rules[0].0, Flattened(rules[0].1))] + FlattenAll(rules[1..])
  }

  lemma {:induction false} LookupFlattened(rules: Dict<Rule>, v: string)
    ensures var r := Lookup(rules, v);
            Lookup(FlattenAll(rules), v) == if r.Some? then Some(Flattened(r.value)) else None
  {
    if rules != [] && rules[0].0 != v {
      assert FlattenAll(rules)[1..] == FlattenAll(rules[1..]);
      LookupFlattened(rules[1..], v);
    }
  }

  lemma {:induction false} AltsDeriveAlike(rules: Dict<Rule>, alts: seq<Alt>, depth: nat)
    ensures AltsDerive(FlattenAll(rules), alts, depth) <==> AltsDerive(rules, alts, depth)
    decreases depth, alts
  {
    if alts != [] {
      AltDerivesAlike(rules, alts[0], depth);
      AltsDeriveAlike(rules, alts[1..], depth);
    }
  }

  lemma {:induction false} AltDerivesAlike(rules: Dict<Rule>, a: Alt, depth: nat)
    ensures AltDerives(FlattenAll(rules), a, depth) <==> AltDerives(rules, a, depth)
    decreases depth, a
  {
    ItemsDeriveAlike(rules, a.items, depth);
  }

  lemma {:induction false} ItemsDeriveAlike(rules: Dict<Rule>, items: seq<NamedItem>, depth: nat)
    ensures ItemsDerive(FlattenAll(rules), items, depth) <==> ItemsDerive(rules, items, depth)
    decreases depth, items
  {
    if items != [] {
      NamedItemDerivesAlike(rules, items[0], depth);
      ItemsDeriveAlike(rules, items[1..], depth);
    }
  }

  lemma {:induction false} NamedItemDerivesAlike(rules: Dict<Rule>, n: NamedItem, depth: nat)
    ensures NamedItemDerives(FlattenAll(rules), n, depth) <==> NamedItemDerives(rules, n, depth)
    decreases depth, n
  {
    ItemDerivesAlike(rules, n.item, depth);
  }

  lemma {:induction false} ItemDerivesAlike(rules: Dict<Rule>, x: Item, depth: nat)
    ensures ItemDerives(FlattenAll(rules), x, depth) <==> ItemDerives(rules, x, depth)
    decreases depth, x
  {
    match x
    case NameLeaf(v) =>
      LookupFlattened(rules, v);
      var r := Lookup(rules, v);
      if depth > 0 && r.Some? {
        AltsDeriveAlike(rules, Flatten(r.value).alts, depth - 1);
        FlattenKeepsDerivations(rules, r.value, depth - 1);
      }
    case Group(r) => AltsDeriveAlike(rules, r.alts, depth);
    case RhsItem(r) => AltsDeriveAlike(rules, r.alts, depth);
    case _ =>
  }

  /** Flattening every rule of a grammar keeps which rules can match nothing. */
  lemma {:induction false} FlatteningKeepsNullables(rules: Dict<Rule>, r: Rule)
    ensures Nullable(FlattenAll(rules), Flattened(r)) <==> Nullable(rules, r)
  {
    forall depth: nat
      ensures AltsDerive(FlattenAll(rules), Flattened(r).rhs.alts, depth) <==> AltsDerive(rules, r.rhs.alts, depth)
    {
      AltsDeriveAlike(rules, Flatten(r).alts, depth);
      FlattenKeepsDerivations(rules, r, depth);
    }
  }

  /** The same rules are marked before and after. */
  predicate MarkedAlike(rules: Dict<Rule>, marked: seq<Node>, flat: seq<Node>) {
    forall i :: 0 <= i < |rules| ==> (RuleNode(Flattened(rules[i].1)) in flat <==> RuleNode(rules[i].1) in marked)
  }

  lemma {:induction false} AltsFirstAlike(
    rules: Dict<Rule>, marked: seq<Node>, flat: seq<Node>, alts: seq<Alt>, depth: nat
  )
    requires MarkedAlike(rules, marked, flat)
    ensures AltsFirst(FlattenAll(rules), flat, alts, depth) == AltsFirst(rules, marked, alts, depth)
    decreases depth, 0, alts
  {
    hide MarkedAlike, FlattenAll;
    if alts != [] {
      ItemsFirstAlike(rules, marked, flat, alts[0].items, depth);
      AltsFirstAlike(rules, marked, flat, alts[1..], depth);
    }
  }

  lemma {:induction false} ItemsFirstAlike(
    rules: Dict<Rule>, marked: seq<Node>, flat: seq<Node>, items: seq<NamedItem>, depth: nat
  )
    requires MarkedAlike(rules, marked, flat)
    ensures Shown(FlattenAll(rules), flat, items, depth) == Shown(rules, marked, items, depth)
    ensures Barred(FlattenAll(rules), flat, items, depth) == Barred(rules, marked, items, depth)
    decreases depth, 0, items
  {
    hide MarkedAlike, FlattenAll;
    if items != [] {
      NamedItemFirstAlike(rules, marked, flat, items[0], depth);
      ItemsFirstAlike(rules, marked, flat, items[1..], depth);
    }
  }

  lemma {:induction false} NamedItemFirstAlike(
    rules: Dict<Rule>, marked: seq<Node>, flat: seq<Node>, n: NamedItem, depth: nat
  )
    requires MarkedAlike(rules, marked, flat)
    ensures NamedItemFirst(FlattenAll(rules), flat, n, depth) == NamedItemFirst(rules, marked, n, depth)
    decreases depth, 0, n
  {
    hide MarkedAlike, FlattenAll;
    ItemFirstAlike(rules, marked, flat, n.item, depth);
  }

  lemma {:induction false} ItemFirstAlike(
    rules: Dict<Rule>, marked: seq<Node>, flat: seq<Node>, x: Item, depth: nat
  )
    requires MarkedAlike(rules, marked, flat)
    ensures ItemFirst(FlattenAll(rules), flat, x, depth) == ItemFirst(rules, marked, x, depth)
    decreases depth, 0, x
  {
    match x
    case NameLeaf(v) =>
      LookupFlattened(rules, v);
      var r := Lookup(rules, v);
      if depth > 0 && r.Some? {
        AltsFirstAlike(rules, marked, flat, Flatten(r.value).alts, depth - 1);
        FlattenKeepsFirsts(rules, marked, r.value, depth - 1);
        var i :| 0 <= i < |rules| && rules[i].1 == r.value;
      }
    case Group(r) => AltsFirstAlike(rules, marked, flat, r.alts, depth);
    case RhsItem(r) => AltsFirstAlike(rules, marked, flat, r.alts, depth);
    case Opt(n) => ItemFirstAlike(rules, marked, flat, n, depth);
    case Repeat0(n) => ItemFirstAlike(rules, marked, flat, n, depth);
    case Repeat1(n) => ItemFirstAlike(rules, marked, flat, n, depth);
    case Gather(_, n) => ItemFirstAlike(rules, marked, flat, n, depth);
    case PositiveLookahead(n) => ItemFirstAlike(rules, marked, flat, n, depth);
    case NegativeLookahead(n) => ItemFirstAlike(rules, marked, flat, n, depth);
    case _ =>
  }

  /** Flattening every rule of a grammar keeps the FIRST set of each, when the same rules are marked nullable. */
  lemma {:induction false} FlatteningKeepsFirstSets(
    rules: Dict<Rule>, marked: seq<Node>, flat: seq<Node>, i: nat, depth: nat
  )
    requires MarkedAlike(rules, marked, flat) && i < |rules|
    ensures RuleFirst(FlattenAll(rules), flat, Flattened(rules[i].1), depth)
         == RuleFirst(rules, marked, rules[i].1, depth)
  {
    AltsFirstAlike(rules, marked, flat, Flatten(rules[i].1).alts, depth);
    FlattenKeepsFirsts(rules, marked, rules[i].1, depth);
  }
}
