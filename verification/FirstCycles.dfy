/**
 Mutual recursion: where every cycle of first-position references that a rule is
 on goes through that rule, and the walk enters it first, its set is the one of
 the grammar in which the rule is replaced by one without alternatives.
 */
module FirstCycles {
  import opened Wrappers
  import opened GrammarTree
  import opened Nullables
  import opened FirstSets
  import opened FirstEquations

  function Emptied(v: string): Rule {
    Rule(v, None, Rhs([]))
  }

  /** The grammar in which the rule named `v` has no alternatives. */
  function Without(rules: Dict<Rule>, v: string): (w: Dict<Rule>)
    ensures |w| == |rules|
    ensures forall i :: 0 <= i < |rules| ==>
              w[i] == (rules[i].0, if rules[i].0 == v then Emptied(v) else rules[i].1)
  {
    if rules == [] then []
    else [(rules[0].0, if rules[0].0 == v then Emptied(v) else rules[0].1)] + Without(rules[1..], v)
  }

  function Unmarked(marked: seq<Node>, v: string): (m: seq<Node>)
    ensures forall n :: n in m <==> n in marked && n != RuleNode(Emptied(v))
  {
    if marked == [] then []
    else
      var rest := Unmarked(marked[1..], v);
      assert forall n :: n in marked <==> n == marked[0] || n in marked[1..];
      if marked[0] == RuleNode(Emptied(v)) then rest else [marked[0]] + rest
  }

  lemma {:induction false} LookupWithout(rules: Dict<Rule>, v: string, u: string)
    ensures Lookup(Without(rules, v), u)
         == if u == v && Lookup(rules, u).Some? then Some(Emptied(v)) else Lookup(rules, u)
  {
    if rules != [] && rules[0].0 != u {
      assert Without(rules, v)[1..] == Without(rules[1..], v);
      LookupWithout(rules[1..], v, u);
    }
  }

  lemma {:induction false} WithoutIsWellNamed(rules: Dict<Rule>, v: string)
    requires WellNamed(rules)
    ensures WellNamed(Without(rules, v))
  {
  }

  lemma {:induction false} HasWithout(rules: Dict<Rule>, v: string, r: Rule)
    requires WellNamed(rules) && Has(rules, r) && r.name != v
    ensures Has(Without(rules, v), r)
  {
    var i :| 0 <= i < |rules| && rules[i].1 == r;
    assert Without(rules, v)[i].1 == r;
  }

  // While the rule is under way, the walk is that of the other grammar.

  function Cut(w: Walk, v: string): Walk {
    w.(open := w.open - {v})
  }

  /** The rule is under way and has given nothing. */
  predicate Under(w: Walk, v: string) {
    v in w.open && (v in w.sets ==> w.sets[v] == {})
  }

  lemma {:induction false} RuleCuts(rules: Dict<Rule>, marked: seq<Node>, v: string, w: Walk, r: Rule)
    requires WellNamed(rules) && Has(rules, r) && r.name != v && Under(w, v) && Lookup(rules, v).Some?
    requires Has(Without(rules, v), r)
    ensures var (found, end) := WalkRule(rules, marked, w, r);
            && WalkRule(Without(rules, v), Unmarked(marked, v), Cut(w, v), r) == (found, Cut(end, v)) && Under(end, v)
    decreases |Names(rules) - w.open|, 0, r
  {
    hide Without, Unmarked;
    if r.name !in w.open && r.name !in w.sets {
      FewerClosed(rules, w.open, r);
      var inner := w.(open := w.open + {r.name});
      assert Cut(inner, v) == Cut(w, v).(open := Cut(w, v).open + {r.name});
      AltsCut(rules, marked, v, inner, r.rhs.alts);
      var (found, next) := WalkAlts(rules, marked, inner, r.rhs.alts);
      var terminals := if RuleNode(r) in marked then found + {""} else found;
      var end := next.(sets := next.sets[r.name := terminals], open := next.open - {r.name});
      assert Cut(end, v).open == Cut(next, v).open - {r.name};
    }
  }

  lemma {:induction false} NameCuts(rules: Dict<Rule>, marked: seq<Node>, v: string, w: Walk, u: string)
    requires WellNamed(rules) && Under(w, v) && Lookup(rules, v).Some?
    ensures var (found, end) := WalkItem(rules, marked, w, NameLeaf(u));
            && WalkItem(Without(rules, v), Unmarked(marked, v), Cut(w, v), NameLeaf(u)) == (found, Cut(end, v))
            && Under(end, v)
    decreases |Names(rules) - w.open|, 0
  {
    hide Without, Unmarked;
    LookupWithout(rules, v, u);
    LookupNames(rules, u);
    if u == v {
      EmptiedGivesNothing(rules, marked, v, w);
    } else if Lookup(rules, u).Some? && u !in w.sets {
      HasWithout(rules, v, Lookup(rules, u).value);
      RuleCuts(rules, marked, v, w, Lookup(rules, u).value);
    }
  }

  lemma {:induction false} EmptiedGivesNothing(rules: Dict<Rule>, marked: seq<Node>, v: string, w: Walk)
    requires Under(w, v) && Lookup(rules, v).Some? && Lookup(Without(rules, v), v) == Some(Emptied(v))
    requires Lookup(rules, v).value.name == v
    ensures WalkItem(rules, marked, w, NameLeaf(v)) == ({}, w.(sets := w.sets[v := {}]))
    ensures WalkItem(Without(rules, v), Unmarked(marked, v), Cut(w, v), NameLeaf(v))
         == ({}, Cut(w.(sets := w.sets[v := {}]), v))
  {
    hide Without, Unmarked;
    var rules', marked' := Without(rules, v), Unmarked(marked, v);
    if v in w.sets {
      assert w.sets[v := {}] == w.sets;
    } else {
      var inner := Cut(w, v).(open := Cut(w, v).open + {v});
      assert WalkAlts(rules', marked', inner, []) == ({}, inner);
      assert inner.open - {v} == Cut(w, v).open;
      assert RuleNode(Emptied(v)) !in marked';
      assert w.sets[v := {}][v := {}] == w.sets[v := {}];
    }
  }

  lemma {:induction false} AltsCut(
    rules: Dict<Rule>, marked: seq<Node>, v: string, w: Walk,
    alts: seq<Alt>
  )
    requires WellNamed(rules) && Under(w, v) && Lookup(rules, v).Some?
    ensures var (found', end) := WalkAlts(rules, marked, w, alts);
            && WalkAlts(Without(rules, v), Unmarked(marked, v), Cut(w, v), alts)
               == (found', Cut(end, v))
            && Under(end, v)
    decreases |Names(rules) - w.open|, 1, alts, 0
  {
    hide Without, Unmarked, Under, Cut;
    CutOpen(w, v);
    if alts != [] {
      AltCuts(rules, marked, v, w, alts[0]);
      var next := WalkAlt(rules, marked, w, alts[0]).1;
      AltsCut(rules, marked, v, next, alts[1..]);
    }
  }

  lemma {:induction false} AltCuts(
    rules: Dict<Rule>, marked: seq<Node>, v: string, w: Walk,
    a: Alt
  )
    requires WellNamed(rules) && Under(w, v) && Lookup(rules, v).Some?
    ensures var (found', end) := WalkAlt(rules, marked, w, a);
            && WalkAlt(Without(rules, v), Unmarked(marked, v), Cut(w, v), a)
               == (found', Cut(end, v))
            && Under(end, v)
    decreases |Names(rules) - w.open|, 1, a, 0
  {
    hide Without, Unmarked, Under, Cut;
    ItemsCut(rules, marked, v, w, a.items, {}, {});
  }

  lemma {:induction false} ItemsCut(
    rules: Dict<Rule>, marked: seq<Node>, v: string, w: Walk,
    items: seq<NamedItem>, found: set<string>, removed: set<string>
  )
    requires WellNamed(rules) && Under(w, v) && Lookup(rules, v).Some?
    ensures var (found', end) := WalkItems(rules, marked, w, items, found, removed);
            && WalkItems(Without(rules, v), Unmarked(marked, v), Cut(w, v), items, found, removed)
               == (found', Cut(end, v))
            && Under(end, v)
    decreases |Names(rules) - w.open|, 1, items, 0
  {
    hide Without, Unmarked, Under, Cut;
    if items != [] {
      NamedItemCuts(rules, marked, v, w, items[0]);
      var (added, next) := WalkNamedItem(rules, marked, w, items[0]);
      var removed' := if items[0].item.NegativeLookahead? then removed + added else removed;
      if "" in added || MayBeSkipped(items[0].item) {
        ItemsCut(rules, marked, v, next, items[1..], (found + added) - removed', removed');
      }
    }
  }

  lemma {:induction false} NamedItemCuts(
    rules: Dict<Rule>, marked: seq<Node>, v: string, w: Walk,
    n: NamedItem
  )
    requires WellNamed(rules) && Under(w, v) && Lookup(rules, v).Some?
    ensures var (found', end) := WalkNamedItem(rules, marked, w, n);
            && WalkNamedItem(Without(rules, v), Unmarked(marked, v), Cut(w, v), n)
               == (found', Cut(end, v))
            && Under(end, v)
    decreases |Names(rules) - w.open|, 1, n, 0
  {
    hide Without, Unmarked, Under, Cut;
    ItemCuts(rules, marked, v, w, n.item);
  }

  lemma {:induction false} ItemCuts(
    rules: Dict<Rule>, marked: seq<Node>, v: string, w: Walk,
    x: Item
  )
    requires WellNamed(rules) && Under(w, v) && Lookup(rules, v).Some?
    ensures var (found', end) := WalkItem(rules, marked, w, x);
            && WalkItem(Without(rules, v), Unmarked(marked, v), Cut(w, v), x)
               == (found', Cut(end, v))
            && Under(end, v)
    decreases |Names(rules) - w.open|, 1, x, 0
  {
    hide Without, Unmarked, Under, Cut;
    match x
    case NameLeaf(u) => NameCuts(rules, marked, v, w, u);
    case Group(r) => AltsCut(rules, marked, v, w, r.alts);
    case RhsItem(r) => AltsCut(rules, marked, v, w, r.alts);
    case StringLeaf(_) | Cut =>
    case Forced(_) => FailsUnder(w, v);
    case Opt(n) => ItemCuts(rules, marked, v, w, n);
    case Repeat0(n) => ItemCuts(rules, marked, v, w, n);
    case Repeat1(n) => ItemCuts(rules, marked, v, w, n);
    case Gather(_, n) => ItemCuts(rules, marked, v, w, n);
    case PositiveLookahead(n) => ItemCuts(rules, marked, v, w, n);
    case NegativeLookahead(n) => ItemCuts(rules, marked, v, w, n);
  }

  lemma {:induction false} CutOpen(w: Walk, v: string)
    requires Under(w, v)
    ensures Cut(w, v).open == w.open - {v} && Cut(w, v).sets == w.sets
  {
  }

  lemma {:induction false} FailsUnder(w: Walk, v: string)
    requires Under(w, v)
    ensures Under(w.(failed := true), v) && Cut(w, v).(failed := true) == Cut(w.(failed := true), v)
  {
  }

  // An acyclic part is the same in both grammars, when the rule itself is not acyclic.

  lemma {:induction false} AltsSame(rules: Dict<Rule>, marked: seq<Node>, v: string, alts: seq<Alt>, d: nat)
    requires WellNamed(rules) && !Acyclic(rules, marked, v)
    requires AltsEnd(rules, marked, alts, d)
    ensures AltsEnd(Without(rules, v), Unmarked(marked, v), alts, d)
    ensures AltsFirst(Without(rules, v), Unmarked(marked, v), alts, d) == AltsFirst(rules, marked, alts, d)
    decreases d, alts
  {
    hide Without, Unmarked, Acyclic;
    if alts != [] {
      AltSame(rules, marked, v, alts[0], d);
      AltsSame(rules, marked, v, alts[1..], d);
    }
  }

  lemma {:induction false} AltSame(rules: Dict<Rule>, marked: seq<Node>, v: string, a: Alt, d: nat)
    requires WellNamed(rules) && !Acyclic(rules, marked, v)
    requires AltEnds(rules, marked, a, d)
    ensures AltEnds(Without(rules, v), Unmarked(marked, v), a, d)
    ensures AltFirst(Without(rules, v), Unmarked(marked, v), a, d) == AltFirst(rules, marked, a, d)
    decreases d, a
  {
    hide Without, Unmarked, Acyclic;
    ItemsSame(rules, marked, v, a.items, d);
  }

  lemma {:induction false} ItemsSame(rules: Dict<Rule>, marked: seq<Node>, v: string, items: seq<NamedItem>, d: nat)
    requires WellNamed(rules) && !Acyclic(rules, marked, v)
    requires ItemsEnd(rules, marked, items, d)
    ensures ItemsEnd(Without(rules, v), Unmarked(marked, v), items, d)
    ensures Shown(Without(rules, v), Unmarked(marked, v), items, d) == Shown(rules, marked, items, d)
    ensures Barred(Without(rules, v), Unmarked(marked, v), items, d) == Barred(rules, marked, items, d)
    decreases d, items
  {
    hide Without, Unmarked, Acyclic;
    if items != [] {
      NamedItemSame(rules, marked, v, items[0], d);
      if PassedOver(rules, marked, items[0], d) {
        ItemsSame(rules, marked, v, items[1..], d);
      }
    }
  }

  lemma {:induction false} NamedItemSame(rules: Dict<Rule>, marked: seq<Node>, v: string, n: NamedItem, d: nat)
    requires WellNamed(rules) && !Acyclic(rules, marked, v)
    requires NamedItemEnds(rules, marked, n, d)
    ensures NamedItemEnds(Without(rules, v), Unmarked(marked, v), n, d)
    ensures NamedItemFirst(Without(rules, v), Unmarked(marked, v), n, d) == NamedItemFirst(rules, marked, n, d)
    decreases d, n
  {
    hide Without, Unmarked, Acyclic;
    ItemSame(rules, marked, v, n.item, d);
  }

  lemma {:induction false} ItemSame(rules: Dict<Rule>, marked: seq<Node>, v: string, x: Item, d: nat)
    requires WellNamed(rules) && !Acyclic(rules, marked, v)
    requires ItemEnds(rules, marked, x, d)
    ensures ItemEnds(Without(rules, v), Unmarked(marked, v), x, d)
    ensures ItemFirst(Without(rules, v), Unmarked(marked, v), x, d) == ItemFirst(rules, marked, x, d)
    decreases d, x
  {
    hide Without, Unmarked, Acyclic;
    match x
    case NameLeaf(u) =>
      LookupWithout(rules, v, u);
      LookupNames(rules, u);
      if Lookup(rules, u).Some? {
        AcyclicAt(rules, marked, u, d - 1);
        AltsSame(rules, marked, v, Lookup(rules, u).value.rhs.alts, d - 1);
        var r := Lookup(rules, u).value;
        assert RuleNode(r) in Unmarked(marked, v) <==> RuleNode(r) in marked;
      }
    case Group(r) => AltsSame(rules, marked, v, r.alts, d);
    case RhsItem(r) => AltsSame(rules, marked, v, r.alts, d);
    case StringLeaf(_) | Cut | Forced(_) =>
    case Opt(n) => ItemSame(rules, marked, v, n, d);
    case Repeat0(n) => ItemSame(rules, marked, v, n, d);
    case Repeat1(n) => ItemSame(rules, marked, v, n, d);
    case Gather(_, n) => ItemSame(rules, marked, v, n, d);
    case PositiveLookahead(n) => ItemSame(rules, marked, v, n, d);
    case NegativeLookahead(n) => ItemSame(rules, marked, v, n, d);
  }

  lemma {:induction false} AcyclicAt(rules: Dict<Rule>, marked: seq<Node>, u: string, d: nat)
    requires Lookup(rules, u).Some? && AltsEnd(rules, marked, Lookup(rules, u).value.rhs.alts, d)
    ensures Acyclic(rules, marked, u)
  {
    assert Grounded(rules, marked, u, d);
  }

  /** Sets of acyclic rules are also right in the other grammar. */
  lemma {:induction false} ExactWithout(rules: Dict<Rule>, marked: seq<Node>, v: string, w: Walk)
    requires WellNamed(rules) && Exact(rules, marked, w) && w.open == {} && !Acyclic(rules, marked, v)
    requires forall u :: u in w.sets ==> Acyclic(rules, marked, u)
    ensures Exact(Without(rules, v), Unmarked(marked, v), w)
  {
    hide Without, Unmarked;
    var rules', marked' := Without(rules, v), Unmarked(marked, v);
    forall u, k: nat | u in w.sets && u !in w.open && Grounded(rules', marked', u, k)
      ensures w.sets[u] == FirstOf(rules', marked', u, k)
    {
      assert Acyclic(rules, marked, u);
      var d: nat :| Grounded(rules, marked, u, d);
      SetIsSame(rules, marked, v, u, d, k);
    }
  }

  lemma {:induction false} SetIsSame(rules: Dict<Rule>, marked: seq<Node>, v: string, u: string, d: nat, k: nat)
    requires WellNamed(rules) && !Acyclic(rules, marked, v) && Grounded(rules, marked, u, d)
    requires Grounded(Without(rules, v), Unmarked(marked, v), u, k)
    ensures FirstOf(Without(rules, v), Unmarked(marked, v), u, k) == FirstOf(rules, marked, u, d)
  {
    hide Without, Unmarked, AltsFirst, AltsEnd;
    var rules', marked' := Without(rules, v), Unmarked(marked, v);
    LookupWithout(rules, v, u);
    LookupNames(rules, u);
    assert Acyclic(rules, marked, u);
    AltsSame(rules, marked, v, Lookup(rules, u).value.rhs.alts, d);
    if k <= d {
      GroundedSettles(rules', marked', u, k, d);
    } else {
      GroundedSettles(rules', marked', u, d, k);
    }
  }

  lemma {:induction false} OnlyAcyclicSoFar(rules: Dict<Rule>, marked: seq<Node>, w: Walk, todo: Dict<Rule>)
    requires WellNamed(rules) && Exact(rules, marked, w) && w.open == {}
    requires forall i :: 0 <= i < |todo| ==> Has(rules, todo[i].1)
    requires forall i :: 0 <= i < |todo| ==> Acyclic(rules, marked, todo[i].1.name)
    requires forall u :: u in w.sets ==> Acyclic(rules, marked, u)
    ensures forall u :: u in WalkRules(rules, marked, w, todo).sets ==> Acyclic(rules, marked, u)
    decreases |todo|
  {
    hide Exact, Grounded, Acyclic;
    if todo != [] {
      var r := todo[0].1;
      var next := WalkRule(rules, marked, w, r).1;
      assert Acyclic(rules, marked, todo[0].1.name);
      OneAcyclicMore(rules, marked, w, r);
      WalkRuleKeeps(rules, marked, w, r) by { assert NoneGrounded(rules, marked, w.open); }
      OnlyAcyclicSoFar(rules, marked, next, todo[1..]);
    }
  }

  lemma {:induction false} OneAcyclicMore(rules: Dict<Rule>, marked: seq<Node>, w: Walk, r: Rule)
    requires WellNamed(rules) && Has(rules, r) && Exact(rules, marked, w) && w.open == {}
    requires Acyclic(rules, marked, r.name)
    requires forall u :: u in w.sets ==> Acyclic(rules, marked, u)
    ensures forall u :: u in WalkRule(rules, marked, w, r).1.sets ==> Acyclic(rules, marked, u)
  {
    hide Exact, Grounded;
    var d: nat :| Grounded(rules, marked, r.name, d);
    WalkRuleExact(rules, marked, w, r, Least(rules, marked, r.name, d));
  }

  lemma {:induction false} CycleIsExact(rules: Dict<Rule>, marked: seq<Node>, i: nat, d: nat)
    requires WellNamed(rules) && i < |rules| && !Acyclic(rules, marked, rules[i].1.name)
    requires forall k :: 0 <= k < i ==> Acyclic(rules, marked, rules[k].1.name)
    requires AltsEnd(Without(rules, rules[i].1.name), Unmarked(marked, rules[i].1.name), rules[i].1.rhs.alts, d)
    ensures forall k :: 0 <= k < |rules| ==> Has(rules, rules[k].1)
    ensures var (r, sets) := (rules[i].1, WalkRules(rules, marked, Start, rules).sets);
            && r.name in sets
            && sets[r.name] == AltsFirst(Without(rules, r.name), Unmarked(marked, r.name), r.rhs.alts, d)
                               + if RuleNode(r) in marked then {""} else {}
  {
    hide Exact, Kept, Without, Unmarked, AltsFirst, AltsEnd, Acyclic, WellNamed, WalkRules, WalkRule;
    var r, end := rules[i].1, WalkRules(rules, marked, Start, rules);
    var w, next := LoopThrough(rules, marked, i);
    StartIsExact(rules, marked);
    WalkRulesKeeps(rules, marked, Start, rules[..i]);
    OnlyAcyclicSoFar(rules, marked, Start, rules[..i]);
    FreshRuleIsExact(rules, marked, w, r, d);
    StaysFinished(w, next, end, r.name);
  }

  /**
   The first rule of a grammar that is not acyclic, when it is once references to itself
   are cut, gets exactly the set of its equation with those references empty at any depth:
   also those of the rules that lead back to it.
   */
  lemma {:induction false} CycleSetIsExact(rules: seq<Rule>, i: nat, d: nat)
    requires var dict := RuleDict(rules);
             var marked := ComputeNullables(dict);
             && i < |dict| && !Acyclic(dict, marked, dict[i].1.name)
             && (forall k :: 0 <= k < i ==> Acyclic(dict, marked, dict[k].1.name))
             && AltsEnd(Without(dict, dict[i].1.name), Unmarked(marked, dict[i].1.name), dict[i].1.rhs.alts, d)
    ensures var dict := RuleDict(rules);
            var marked := ComputeNullables(dict);
            var (r, sets) := (dict[i].1, Calculate(dict).sets);
            && r.name in sets
            && sets[r.name] == AltsFirst(Without(dict, r.name), Unmarked(marked, r.name), r.rhs.alts, d)
                               + if RuleNode(r) in marked then {""} else {}
  {
    hide RuleDict, ComputeNullables, WalkRules, Without, Unmarked, AltsFirst, AltsEnd, Acyclic, WellNamed;
    GrammarsAreWellNamed(rules);
    CycleIsExact(RuleDict(rules), ComputeNullables(RuleDict(rules)), i, d);
  }

  lemma {:induction false} StartIsExact(rules: Dict<Rule>, marked: seq<Node>)
    ensures Exact(rules, marked, Start)
  {
  }

  lemma {:induction false} FreshRuleIsExact(rules: Dict<Rule>, marked: seq<Node>, w: Walk, r: Rule, d: nat)
    requires WellNamed(rules) && Has(rules, r) && Exact(rules, marked, w) && w.open == {}
    requires !Acyclic(rules, marked, r.name) && forall u :: u in w.sets ==> Acyclic(rules, marked, u)
    requires AltsEnd(Without(rules, r.name), Unmarked(marked, r.name), r.rhs.alts, d)
    ensures var (found, end) := WalkRule(rules, marked, w, r);
            && r.name in end.sets && end.sets[r.name] == found
            && found == AltsFirst(Without(rules, r.name), Unmarked(marked, r.name), r.rhs.alts, d)
                        + if RuleNode(r) in marked then {""} else {}
  {
    hide Exact, Without, Unmarked, AltsFirst, AltsEnd, Acyclic;
    var v := r.name;
    LookupFinds(rules, r);
    var inner := w.(open := w.open + {v});
    assert Cut(inner, v) == w;
    AltsCut(rules, marked, v, inner, r.rhs.alts);
    WithoutIsWellNamed(rules, v);
    ExactWithout(rules, marked, v, w);
    NothingAbove(Without(rules, v), Unmarked(marked, v), d);
    WalkAltsExact(Without(rules, v), Unmarked(marked, v), w, r.rhs.alts, d);
  }

  lemma {:induction false} NothingAbove(rules: Dict<Rule>, marked: seq<Node>, d: nat)
    ensures Above(rules, marked, {}, d)
  {
  }
}
