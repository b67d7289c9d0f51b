/**
 What the memoised walk of FirstSetCalculator.php computes for every grammar,
 left-recursive or not: each set solves the equation of its rule over all the
 sets, in which references to the rules under way at that time count as empty.
 */
module FirstSolutions {
  import opened Wrappers
  import opened GrammarTree
  import opened Nullables
  import opened FirstSets
  import opened FirstEquations

  // The equation of a rule over given sets. References to the rules in `open` give nothing.

  function RuleOver(
    rules: Dict<Rule>, marked: seq<Node>, sets: map<string, set<string>>, open: set<string>, r: Rule
  ): set<string> {
    AltsOver(rules, sets, open, r.rhs.alts) + if RuleNode(r) in marked then {""} else {}
  }

  function AltsOver(rules: Dict<Rule>, sets: map<string, set<string>>, open: set<string>, alts: seq<Alt>): set<string>
    decreases alts
  {
    if alts == [] then {} else AltOver(rules, sets, open, alts[0]) + AltsOver(rules, sets, open, alts[1..])
  }

  function AltOver(rules: Dict<Rule>, sets: map<string, set<string>>, open: set<string>, a: Alt): set<string>
    decreases a
  {
    ShownOver(rules, sets, open, a.items) - BarredOver(rules, sets, open, a.items) - {""}
  }

  function ShownOver(
    rules: Dict<Rule>, sets: map<string, set<string>>, open: set<string>, items: seq<NamedItem>
  ): set<string>
    decreases items
  {
    if items == [] then {}
    else
      NamedItemOver(rules, sets, open, items[0])
      + if PassedOverBy(rules, sets, open, items[0]) then ShownOver(rules, sets, open, items[1..]) else {}
  }

  function BarredOver(
    rules: Dict<Rule>, sets: map<string, set<string>>, open: set<string>, items: seq<NamedItem>
  ): set<string>
    decreases items
  {
    if items == [] then {}
    else
      (if items[0].item.NegativeLookahead? then NamedItemOver(rules, sets, open, items[0]) else {})
      + if PassedOverBy(rules, sets, open, items[0]) then BarredOver(rules, sets, open, items[1..]) else {}
  }

  predicate PassedOverBy(rules: Dict<Rule>, sets: map<string, set<string>>, open: set<string>, n: NamedItem)
    decreases n, 1
  {
    MayBeSkipped(n.item) || "" in NamedItemOver(rules, sets, open, n)
  }

  function NamedItemOver(
    rules: Dict<Rule>, sets: map<string, set<string>>, open: set<string>, n: NamedItem
  ): set<string>
    decreases n, 0
  {
    ItemOver(rules, sets, open, n.item)
  }

  function ItemOver(rules: Dict<Rule>, sets: map<string, set<string>>, open: set<string>, x: Item): set<string>
    decreases x
  {
    match x
    case NameLeaf(v) =>
      if Lookup(rules, v).None? then {v} else if v in open || v !in sets then {} else sets[v]
    case StringLeaf(v) => {v}
    case Group(r) => AltsOver(rules, sets, open, r.alts)
    case RhsItem(r) => AltsOver(rules, sets, open, r.alts)
    case Opt(n) => ItemOver(rules, sets, open, n)
    case Repeat0(n) => ItemOver(rules, sets, open, n)
    case Repeat1(n) => ItemOver(rules, sets, open, n)
    case Gather(_, n) => ItemOver(rules, sets, open, n)
    case PositiveLookahead(n) => ItemOver(rules, sets, open, n)
    case NegativeLookahead(n) => ItemOver(rules, sets, open, n)
    case Cut => {}
    case Forced(_) => {}
  }

  // Whether the equation meets a Forced item, on which the walk fails.

  predicate AltsForce(rules: Dict<Rule>, sets: map<string, set<string>>, open: set<string>, alts: seq<Alt>)
    decreases alts
  {
    alts != [] && (AltForces(rules, sets, open, alts[0]) || AltsForce(rules, sets, open, alts[1..]))
  }

  predicate AltForces(rules: Dict<Rule>, sets: map<string, set<string>>, open: set<string>, a: Alt)
    decreases a
  {
    ItemsForce(rules, sets, open, a.items)
  }

  predicate ItemsForce(rules: Dict<Rule>, sets: map<string, set<string>>, open: set<string>, items: seq<NamedItem>)
    decreases items
  {
    && items != []
    && (|| NamedItemForces(rules, sets, open, items[0])
        || (PassedOverBy(rules, sets, open, items[0]) && ItemsForce(rules, sets, open, items[1..])))
  }

  predicate NamedItemForces(rules: Dict<Rule>, sets: map<string, set<string>>, open: set<string>, n: NamedItem)
    decreases n
  {
    ItemForces(rules, sets, open, n.item)
  }

  predicate ItemForces(rules: Dict<Rule>, sets: map<string, set<string>>, open: set<string>, x: Item)
    decreases x
  {
    match x
    case Group(r) => AltsForce(rules, sets, open, r.alts)
    case RhsItem(r) => AltsForce(rules, sets, open, r.alts)
    case Opt(n) => ItemForces(rules, sets, open, n)
    case Repeat0(n) => ItemForces(rules, sets, open, n)
    case Repeat1(n) => ItemForces(rules, sets, open, n)
    case Gather(_, n) => ItemForces(rules, sets, open, n)
    case PositiveLookahead(n) => ItemForces(rules, sets, open, n)
    case NegativeLookahead(n) => ItemForces(rules, sets, open, n)
    case Forced(_) => true
    case NameLeaf(_) | StringLeaf(_) | Cut => false
  }

  // What the walk keeps

  /** The set of `v` solves its equation, and a Forced item met there has failed. */
  ghost predicate SolvedBy(
    rules: Dict<Rule>, marked: seq<Node>, sets: map<string, set<string>>, v: string, open: set<string>,
    found: set<string>, failed: bool
  ) {
    var r := Lookup(rules, v);
    && r.Some? && v in open && found == RuleOver(rules, marked, sets, open, r.value)
    && (AltsForce(rules, sets, open, r.value.rhs.alts) ==> failed)
  }

  /** Finished sets are those in `sets`. */
  predicate Agrees(sets: map<string, set<string>>, w: Walk) {
    forall v :: v in w.sets && v !in w.open ==> v in sets && sets[v] == w.sets[v]
  }

  /** What is finished newly is solved; from a free walk, with no acyclic rule under way but for acyclic rules. */
  ghost predicate SolvedSince(
    rules: Dict<Rule>, marked: seq<Node>, sets: map<string, set<string>>, w: Walk, end: Walk, free: bool
  ) {
    forall v :: v in end.sets && v !in end.open && v !in w.sets ==>
      exists open :: SolvedBy(rules, marked, sets, v, open, end.sets[v], end.failed)
                     && (free && !Acyclic(rules, marked, v) ==> NoneGrounded(rules, marked, open))
  }

  /** The walk enters from a state where no acyclic rule is under way. */
  ghost predicate FreeAt(rules: Dict<Rule>, marked: seq<Node>, w: Walk, free: bool) {
    free ==> Exact(rules, marked, w) && NoneGrounded(rules, marked, w.open)
  }

  lemma {:induction false} AgreedBefore(sets: map<string, set<string>>, mid: Walk, end: Walk)
    requires Agrees(sets, end) && Kept(mid, end)
    ensures Agrees(sets, mid)
  {
  }

  lemma {:induction false} SolvedTwice(
    rules: Dict<Rule>, marked: seq<Node>, sets: map<string, set<string>>, w: Walk, mid: Walk, end: Walk, free: bool
  )
    requires Kept(w, mid) && Kept(mid, end)
    requires SolvedSince(rules, marked, sets, w, mid, free) && SolvedSince(rules, marked, sets, mid, end, free)
    ensures SolvedSince(rules, marked, sets, w, end, free)
  {
    hide RuleOver, AltsForce, Acyclic, NoneGrounded;
    forall v | v in end.sets && v !in end.open && v !in w.sets
      ensures exists open :: SolvedBy(rules, marked, sets, v, open, end.sets[v], end.failed)
                             && (free && !Acyclic(rules, marked, v) ==> NoneGrounded(rules, marked, open))
    {
      if v in mid.sets {
        var open :| SolvedBy(rules, marked, sets, v, open, mid.sets[v], mid.failed)
                    && (free && !Acyclic(rules, marked, v) ==> NoneGrounded(rules, marked, open));
        assert SolvedBy(rules, marked, sets, v, open, end.sets[v], end.failed);
      }
    }
  }

  lemma {:induction false} NothingSolved(
    rules: Dict<Rule>, marked: seq<Node>, sets: map<string, set<string>>, w: Walk, free: bool
  )
    ensures SolvedSince(rules, marked, sets, w, w, free)
  {
  }

  lemma {:induction false} RuleSolves(
    rules: Dict<Rule>, marked: seq<Node>, sets: map<string, set<string>>, w: Walk, r: Rule, free: bool
  )
    requires WellNamed(rules) && Has(rules, r) && FreeAt(rules, marked, w, free)
    requires Agrees(sets, WalkRule(rules, marked, w, r).1)
    ensures SolvedSince(rules, marked, sets, w, WalkRule(rules, marked, w, r).1, free)
    ensures r.name !in w.open && r.name !in w.sets ==>
              var (found, end) := WalkRule(rules, marked, w, r);
              SolvedBy(rules, marked, sets, r.name, w.open + {r.name}, found, end.failed)
    decreases |Names(rules) - w.open|, 0, r
  {
    hide SolvedSince, FreeAt, Agrees, AltsOver, AltsForce, Exact, Grounded, NoneGrounded, OnlyAcyclic;
    LookupFinds(rules, r);
    NothingSolved(rules, marked, sets, w, free);
    if r.name !in w.open && r.name !in w.sets {
      FewerClosed(rules, w.open, r);
      var inner := w.(open := w.open + {r.name});
      var next := WalkAlts(rules, marked, inner, r.rhs.alts).1;
      var (found, end) := WalkRule(rules, marked, w, r);
      AgreesInside(sets, next, end, r.name);
      var still := free && !Acyclic(rules, marked, r.name);
      StaysFree(rules, marked, w, r.name, free);
      if still {
        FreeIsExact(rules, marked, inner);
      }
      AltsSolve(rules, marked, sets, inner, r.rhs.alts, still);
      if free && !still {
        FreeIsExact(rules, marked, w);
        AcyclicRuleIsExact(rules, marked, w, r);
      }
      ClosesSolved(rules, marked, sets, w, next, end, r, free);
    }
  }

  lemma {:induction false} FreeIsExact(rules: Dict<Rule>, marked: seq<Node>, w: Walk)
    requires FreeAt(rules, marked, w, true)
    ensures Exact(rules, marked, w) && NoneGrounded(rules, marked, w.open)
  {
  }

  lemma {:induction false} AgreesInside(sets: map<string, set<string>>, next: Walk, end: Walk, v: string)
    requires Agrees(sets, end) && v in next.open && v in end.sets
    requires end == next.(sets := next.sets[v := end.sets[v]], open := next.open - {v})
    ensures Agrees(sets, next)
  {
  }

  lemma {:induction false} StaysFree(rules: Dict<Rule>, marked: seq<Node>, w: Walk, v: string, free: bool)
    requires FreeAt(rules, marked, w, free)
    ensures FreeAt(rules, marked, w.(open := w.open + {v}), free && !Acyclic(rules, marked, v))
  {
    hide Grounded;
  }

  /** Walking an acyclic rule finishes only such rules. */
  lemma {:induction false} AcyclicRuleIsExact(rules: Dict<Rule>, marked: seq<Node>, w: Walk, r: Rule)
    requires WellNamed(rules) && Has(rules, r) && Exact(rules, marked, w) && NoneGrounded(rules, marked, w.open)
    requires Acyclic(rules, marked, r.name) && r.name !in w.open
    ensures OnlyAcyclic(rules, marked, w, WalkRule(rules, marked, w, r).1)
  {
    hide Exact, Grounded, OnlyAcyclic;
    var d: nat :| Grounded(rules, marked, r.name, d);
    WalkRuleExact(rules, marked, w, r, Least(rules, marked, r.name, d));
  }

  lemma {:induction false} ClosesSolved(
    rules: Dict<Rule>, marked: seq<Node>, sets: map<string, set<string>>, w: Walk, next: Walk, end: Walk, r: Rule,
    free: bool
  )
    requires Lookup(rules, r.name) == Some(r) && r.name !in w.open && r.name in end.sets
    requires next.open == w.open + {r.name}
    requires end == next.(sets := next.sets[r.name := end.sets[r.name]], open := next.open - {r.name})
    requires var still := free && !Acyclic(rules, marked, r.name);
             && SolvedSince(rules, marked, sets, w.(open := next.open), next, still)
             && (still ==> NoneGrounded(rules, marked, next.open))
             && (free && !still ==> OnlyAcyclic(rules, marked, w, end))
    requires SolvedBy(rules, marked, sets, r.name, next.open, end.sets[r.name], end.failed)
    ensures SolvedSince(rules, marked, sets, w, end, free)
  {
    hide RuleOver, AltsForce, Acyclic, NoneGrounded;
    forall v | v in end.sets && v !in end.open && v !in w.sets
      ensures exists open :: SolvedBy(rules, marked, sets, v, open, end.sets[v], end.failed)
                             && (free && !Acyclic(rules, marked, v) ==> NoneGrounded(rules, marked, open))
    {
      if v != r.name {
        var open :| SolvedBy(rules, marked, sets, v, open, next.sets[v], next.failed)
                    && (free && !Acyclic(rules, marked, r.name) && !Acyclic(rules, marked, v) ==>
                          NoneGrounded(rules, marked, open));
        assert SolvedBy(rules, marked, sets, v, open, end.sets[v], end.failed);
      }
    }
  }

  lemma {:induction false} AltsSolve(
    rules: Dict<Rule>, marked: seq<Node>, sets: map<string, set<string>>, w: Walk, alts: seq<Alt>, free: bool
  )
    requires WellNamed(rules) && FreeAt(rules, marked, w, free)
    requires Agrees(sets, WalkAlts(rules, marked, w, alts).1)
    ensures var (found, end) := WalkAlts(rules, marked, w, alts);
            && found == AltsOver(rules, sets, w.open, alts)
            && SolvedSince(rules, marked, sets, w, end, free)
            && (AltsForce(rules, sets, w.open, alts) ==> end.failed)
    decreases |Names(rules) - w.open|, 1, alts, 0
  {
    hide SolvedSince, FreeAt, Agrees, Kept, Exact;
    NothingSolved(rules, marked, sets, w, free);
    if alts != [] {
      var next := WalkAlt(rules, marked, w, alts[0]).1;
      var end := WalkAlts(rules, marked, next, alts[1..]).1;
      KeptBetween(w, next);
      KeptBetween(next, end);
      AgreedBefore(sets, next, end);
      AltSolves(rules, marked, sets, w, alts[0], free);
      AltStaysFree(rules, marked, w, alts[0], free);
      AltsSolve(rules, marked, sets, next, alts[1..], free);
      SolvedTwice(rules, marked, sets, w, next, end, free);
    }
  }

  lemma {:induction false} AltSolves(
    rules: Dict<Rule>, marked: seq<Node>, sets: map<string, set<string>>, w: Walk, a: Alt, free: bool
  )
    requires WellNamed(rules) && FreeAt(rules, marked, w, free)
    requires Agrees(sets, WalkAlt(rules, marked, w, a).1)
    ensures var (found, end) := WalkAlt(rules, marked, w, a);
            && found == AltOver(rules, sets, w.open, a)
            && SolvedSince(rules, marked, sets, w, end, free)
            && (AltForces(rules, sets, w.open, a) ==> end.failed)
    decreases |Names(rules) - w.open|, 1, a, 0
  {
    hide SolvedSince, FreeAt, Agrees, Kept, Exact;
    ItemsSolve(rules, marked, sets, w, a.items, {}, {}, free);
  }

  /** One turn of the loop over items, in terms of sets. */
  lemma {:induction false} OneItemMore(
    rules: Dict<Rule>, sets: map<string, set<string>>, open: set<string>, items: seq<NamedItem>,
    found: set<string>, removed: set<string>, all: set<string>
  )
    requires items != [] && found !! removed
    requires var added := NamedItemOver(rules, sets, open, items[0]);
             var removed' := if items[0].item.NegativeLookahead? then removed + added else removed;
             var found' := (found + added) - removed';
             all == if PassedOverBy(rules, sets, open, items[0])
                    then (found' + ShownOver(rules, sets, open, items[1..]))
                         - (removed' + BarredOver(rules, sets, open, items[1..]))
                    else found'
    ensures all == (found + ShownOver(rules, sets, open, items)) - (removed + BarredOver(rules, sets, open, items))
  {
    hide NamedItemOver, PassedOverBy;
  }

  lemma {:induction false} ItemsSolve(
    rules: Dict<Rule>, marked: seq<Node>, sets: map<string, set<string>>, w: Walk, items: seq<NamedItem>,
    found: set<string>, removed: set<string>, free: bool
  )
    requires WellNamed(rules) && FreeAt(rules, marked, w, free)
    requires found !! removed && Agrees(sets, WalkItems(rules, marked, w, items, found, removed).1)
    ensures var (all, end) := WalkItems(rules, marked, w, items, found, removed);
            && all == (found + ShownOver(rules, sets, w.open, items))
                      - (removed + BarredOver(rules, sets, w.open, items))
            && SolvedSince(rules, marked, sets, w, end, free)
            && (ItemsForce(rules, sets, w.open, items) ==> end.failed)
    decreases |Names(rules) - w.open|, 1, items, 0
  {
    hide SolvedSince, FreeAt, Agrees, Kept, Exact;
    hide WalkItems, ShownOver, BarredOver, ItemsForce, WalkNamedItem, NamedItemOver, NamedItemForces, WellNamed;
    NothingSolved(rules, marked, sets, w, free);
    NoItemsOver(rules, marked, sets, w, found, removed);
    if items != [] {
      var (added, next) := WalkNamedItem(rules, marked, w, items[0]);
      var (all, end) := WalkItems(rules, marked, w, items, found, removed);
      var removed' := if items[0].item.NegativeLookahead? then removed + added else removed;
      var found' := (found + added) - removed';
      WalkItemsStep(rules, marked, w, items, found, removed);
      KeptBetween(w, next);
      KeptBetween(next, end);
      AgreedBefore(sets, next, end);
      NamedItemSolves(rules, marked, sets, w, items[0], free);
      if PassedOverBy(rules, sets, w.open, items[0]) {
        NamedItemStaysFree(rules, marked, w, items[0], free);
        ItemsSolve(rules, marked, sets, next, items[1..], found', removed', free);
        SolvedTwice(rules, marked, sets, w, next, end, free);
      }
      OneItemMore(rules, sets, w.open, items, found, removed, all);
      ItemsForceStep(rules, sets, w.open, items);
    }
  }

  lemma {:induction false} NoItemsOver(
    rules: Dict<Rule>, marked: seq<Node>, sets: map<string, set<string>>, w: Walk, found: set<string>,
    removed: set<string>
  )
    requires found !! removed
    ensures WalkItems(rules, marked, w, [], found, removed) == (found, w)
    ensures found == (found + ShownOver(rules, sets, w.open, [])) - (removed + BarredOver(rules, sets, w.open, []))
    ensures !ItemsForce(rules, sets, w.open, [])
  {
  }

  lemma {:induction false} WalkItemsStep(
    rules: Dict<Rule>, marked: seq<Node>, w: Walk, items: seq<NamedItem>, found: set<string>, removed: set<string>
  )
    requires items != []
    ensures var (added, next) := WalkNamedItem(rules, marked, w, items[0]);
            var removed' := if items[0].item.NegativeLookahead? then removed + added else removed;
            var found' := (found + added) - removed';
            && Kept(w, next) && Kept(next, WalkItems(rules, marked, w, items, found, removed).1)
            && WalkItems(rules, marked, w, items, found, removed) ==
               if "" in added || MayBeSkipped(items[0].item)
               then WalkItems(rules, marked, next, items[1..], found', removed')
               else (found', next)
  {
    hide WalkNamedItem;
  }

  lemma {:induction false} ItemsForceStep(
    rules: Dict<Rule>, sets: map<string, set<string>>, open: set<string>, items: seq<NamedItem>
  )
    requires items != []
    ensures ItemsForce(rules, sets, open, items) <==>
            || NamedItemForces(rules, sets, open, items[0])
            || (PassedOverBy(rules, sets, open, items[0]) && ItemsForce(rules, sets, open, items[1..]))
  {
  }

  lemma {:induction false} NamedItemSolves(
    rules: Dict<Rule>, marked: seq<Node>, sets: map<string, set<string>>, w: Walk, n: NamedItem, free: bool
  )
    requires WellNamed(rules) && FreeAt(rules, marked, w, free)
    requires Agrees(sets, WalkNamedItem(rules, marked, w, n).1)
    ensures var (found, end) := WalkNamedItem(rules, marked, w, n);
            && found == NamedItemOver(rules, sets, w.open, n)
            && SolvedSince(rules, marked, sets, w, end, free)
            && (NamedItemForces(rules, sets, w.open, n) ==> end.failed)
    decreases |Names(rules) - w.open|, 1, n, 0
  {
    hide SolvedSince, FreeAt, Agrees, Kept, Exact;
    ItemSolves(rules, marked, sets, w, n.item, free);
  }

  lemma {:induction false} ItemSolves(
    rules: Dict<Rule>, marked: seq<Node>, sets: map<string, set<string>>, w: Walk, x: Item, free: bool
  )
    requires WellNamed(rules) && FreeAt(rules, marked, w, free)
    requires Agrees(sets, WalkItem(rules, marked, w, x).1)
    ensures var (found, end) := WalkItem(rules, marked, w, x);
            && found == ItemOver(rules, sets, w.open, x)
            && SolvedSince(rules, marked, sets, w, end, free)
            && (ItemForces(rules, sets, w.open, x) ==> end.failed)
    decreases |Names(rules) - w.open|, 1, x, 0
  {
    hide SolvedSince, FreeAt, Agrees, Kept, Exact;
    NothingSolved(rules, marked, sets, w, free);
    match x
    case NameLeaf(v) => NameSolves(rules, marked, sets, w, v, free);
    case Group(r) => AltsSolve(rules, marked, sets, w, r.alts, free);
    case RhsItem(r) => AltsSolve(rules, marked, sets, w, r.alts, free);
    case StringLeaf(_) | Cut =>
    case Forced(_) => FailsOnly(rules, marked, sets, w, free);
    case Opt(n) => ItemSolves(rules, marked, sets, w, n, free);
    case Repeat0(n) => ItemSolves(rules, marked, sets, w, n, free);
    case Repeat1(n) => ItemSolves(rules, marked, sets, w, n, free);
    case Gather(_, n) => ItemSolves(rules, marked, sets, w, n, free);
    case PositiveLookahead(n) => ItemSolves(rules, marked, sets, w, n, free);
    case NegativeLookahead(n) => ItemSolves(rules, marked, sets, w, n, free);
  }

  lemma {:induction false} NameSolves(
    rules: Dict<Rule>, marked: seq<Node>, sets: map<string, set<string>>, w: Walk, v: string, free: bool
  )
    requires WellNamed(rules) && FreeAt(rules, marked, w, free)
    requires Agrees(sets, WalkItem(rules, marked, w, NameLeaf(v)).1)
    ensures var (found, end) := WalkItem(rules, marked, w, NameLeaf(v));
            && found == ItemOver(rules, sets, w.open, NameLeaf(v))
            && SolvedSince(rules, marked, sets, w, end, free)
    decreases |Names(rules) - w.open|, 0
  {
    hide SolvedSince, FreeAt, Agrees, Kept, Exact;
    NothingSolved(rules, marked, sets, w, free);
    var r := Lookup(rules, v);
    var (found, end) := WalkItem(rules, marked, w, NameLeaf(v));
    if r.Some? && v !in w.open {
      LookupNames(rules, v);
      AgreesAt(sets, end, v);
      if v !in w.sets {
        assert end == WalkRule(rules, marked, w, r.value).1;
        RuleSolves(rules, marked, sets, w, r.value, free);
      }
    } else if r.Some? && v !in w.sets {
      LookupNames(rules, v);
      OpenIsMarked(rules, marked, sets, w, v, free);
    }
  }

  lemma {:induction false} AgreesAt(sets: map<string, set<string>>, w: Walk, v: string)
    requires Agrees(sets, w) && v in w.sets && v !in w.open
    ensures v in sets && sets[v] == w.sets[v]
  {
  }

  lemma {:induction false} OpenIsMarked(
    rules: Dict<Rule>, marked: seq<Node>, sets: map<string, set<string>>, w: Walk, v: string, free: bool
  )
    requires v in w.open
    ensures SolvedSince(rules, marked, sets, w, w.(sets := w.sets[v := {}]), free)
  {
  }

  lemma {:induction false} FailsOnly(
    rules: Dict<Rule>, marked: seq<Node>, sets: map<string, set<string>>, w: Walk, free: bool
  )
    ensures SolvedSince(rules, marked, sets, w, w.(failed := true), free)
  {
  }

  lemma {:induction false} KeptBetween(w: Walk, end: Walk)
    requires Kept(w, end)
    ensures end.open == w.open && (w.failed ==> end.failed)
  {
  }

  lemma {:induction false} AltStaysFree(rules: Dict<Rule>, marked: seq<Node>, w: Walk, a: Alt, free: bool)
    requires WellNamed(rules) && FreeAt(rules, marked, w, free)
    ensures FreeAt(rules, marked, WalkAlt(rules, marked, w, a).1, free)
  {
    hide Exact, NoneGrounded;
    if free {
      WalkAltKeeps(rules, marked, w, a);
    }
  }

  lemma {:induction false} NamedItemStaysFree(rules: Dict<Rule>, marked: seq<Node>, w: Walk, n: NamedItem, free: bool)
    requires WellNamed(rules) && FreeAt(rules, marked, w, free)
    ensures FreeAt(rules, marked, WalkNamedItem(rules, marked, w, n).1, free)
  {
    hide Exact, NoneGrounded;
    if free {
      WalkNamedItemKeeps(rules, marked, w, n);
    }
  }

  // Whole calculations

  lemma {:induction false} RulesSolve(
    rules: Dict<Rule>, marked: seq<Node>, sets: map<string, set<string>>, w: Walk, todo: Dict<Rule>
  )
    requires WellNamed(rules) && FreeAt(rules, marked, w, true) && w.open == {}
    requires forall i :: 0 <= i < |todo| ==> Has(rules, todo[i].1)
    requires Agrees(sets, WalkRules(rules, marked, w, todo))
    ensures SolvedSince(rules, marked, sets, w, WalkRules(rules, marked, w, todo), true)
    decreases |todo|
  {
    hide SolvedSince, FreeAt, Agrees, Kept, Exact;
    NothingSolved(rules, marked, sets, w, true);
    if todo != [] {
      var next := WalkRule(rules, marked, w, todo[0].1).1;
      var end := WalkRules(rules, marked, next, todo[1..]);
      KeptBetween(w, next);
      KeptBetween(next, end);
      AgreedBefore(sets, next, end);
      RuleSolves(rules, marked, sets, w, todo[0].1, true);
      RuleStaysFree(rules, marked, w, todo[0].1);
      RulesSolve(rules, marked, sets, next, todo[1..]);
      SolvedTwice(rules, marked, sets, w, next, end, true);
    }
  }

  lemma {:induction false} RuleStaysFree(rules: Dict<Rule>, marked: seq<Node>, w: Walk, r: Rule)
    requires WellNamed(rules) && Has(rules, r) && FreeAt(rules, marked, w, true)
    ensures FreeAt(rules, marked, WalkRule(rules, marked, w, r).1, true)
  {
    hide Exact, NoneGrounded;
    WalkRuleKeeps(rules, marked, w, r);
  }

  lemma {:induction false} StartIsFree(rules: Dict<Rule>, marked: seq<Node>)
    ensures FreeAt(rules, marked, Start, true)
  {
  }

  lemma {:induction false} OwnSetsAgree(w: Walk)
    requires w.open == {}
    ensures Agrees(w.sets, w)
  {
  }

  lemma {:induction false} AllFinished(rules: seq<Rule>, v: string)
    requires Lookup(RuleDict(rules), v).Some?
    ensures v in Calculate(RuleDict(rules)).sets && Calculate(RuleDict(rules)).open == {}
  {
    var dict := RuleDict(rules);
    var marked := ComputeNullables(dict);
    GrammarsAreWellNamed(rules);
    LookupNames(dict, v);
    assert forall i :: 0 <= i < |dict| ==> Has(dict, dict[i].1);
    WalkRulesKeeps(dict, marked, Start, dict);
    var i :| 0 <= i < |dict| && dict[i].1 == Lookup(dict, v).value;
    assert dict[i].1.name in Calculate(dict).sets;
  }

  /**
   In every grammar, each set solves the equation of its rule over all the sets, in
   which references to some rules `open`, the rule itself among them, count as empty:
   those under way when it was walked. They are acyclic only for an acyclic rule.
   */
  lemma {:induction false} SetsSolveTheirEquations(rules: seq<Rule>, v: string) returns (open: set<string>)
    requires Lookup(RuleDict(rules), v).Some?
    ensures var dict := RuleDict(rules);
            var end := Calculate(dict);
            && v in end.sets
            && SolvedBy(dict, ComputeNullables(dict), end.sets, v, open, end.sets[v], end.failed)
            && (!Acyclic(dict, ComputeNullables(dict), v) ==> NoneGrounded(dict, ComputeNullables(dict), open))
  {
    hide SolvedBy, NoneGrounded, Acyclic;
    var dict := RuleDict(rules);
    var marked := ComputeNullables(dict);
    var end := Calculate(dict);
    GrammarsAreWellNamed(rules);
    AllFinished(rules, v);
    assert forall i :: 0 <= i < |dict| ==> Has(dict, dict[i].1);
    StartIsFree(dict, marked);
    OwnSetsAgree(end);
    RulesSolve(dict, marked, end.sets, Start, dict);
    open :| SolvedBy(dict, marked, end.sets, v, open, end.sets[v], end.failed)
            && (!Acyclic(dict, marked, v) ==> NoneGrounded(dict, marked, open));
  }

  /** The rule that the loop over the rules enters before any other has led to it is the only one under way. */
  lemma {:induction false} EnteredFirst(rules: seq<Rule>, i: nat)
    requires var dict := RuleDict(rules);
             i < |dict| && (forall k :: 0 <= k < i ==> Has(dict, dict[..i][k].1))
             && dict[i].1.name !in WalkRules(dict, ComputeNullables(dict), Start, dict[..i]).sets
    ensures var dict := RuleDict(rules);
            var (end, v) := (Calculate(dict), dict[i].1.name);
            && v in end.sets
            && SolvedBy(dict, ComputeNullables(dict), end.sets, v, {v}, end.sets[v], end.failed)
  {
    hide RuleDict, ComputeNullables, SolvedBy, SolvedSince, FreeAt, Agrees, Exact, Kept;
    var dict := RuleDict(rules);
    var marked := ComputeNullables(dict);
    var end, r := Calculate(dict), dict[i].1;
    GrammarsAreWellNamed(rules);
    var w, next := LoopThrough(dict, marked, i);
    StaysFinished(w, next, end, r.name);
    OwnSetsAgree(end);
    AgreedBefore(end.sets, next, end);
    NotFree(dict, marked, w);
    RuleSolves(dict, marked, end.sets, w, r, false);
    assert {} + {r.name} == {r.name};
    SolvedLater(dict, marked, end.sets, r.name, {r.name}, next.sets[r.name], next.failed, end.failed);
  }

  lemma {:induction false} NotFree(rules: Dict<Rule>, marked: seq<Node>, w: Walk)
    ensures FreeAt(rules, marked, w, false)
  {
  }

  lemma {:induction false} SolvedLater(
    rules: Dict<Rule>, marked: seq<Node>, sets: map<string, set<string>>, v: string, open: set<string>,
    found: set<string>, failed: bool, later: bool
  )
    requires SolvedBy(rules, marked, sets, v, open, found, failed) && (failed ==> later)
    ensures SolvedBy(rules, marked, sets, v, open, found, later)
  {
    hide RuleOver, AltsForce;
  }

  // Rules that refer, in first positions, to themselves and to acyclic rules

  /** The set of an acyclic rule, by its equation. */
  ghost function FirstSet(rules: Dict<Rule>, marked: seq<Node>, v: string): set<string>
    requires Acyclic(rules, marked, v)
  {
    var d: nat :| Grounded(rules, marked, v, d);
    FirstOf(rules, marked, v, d)
  }

  ghost function Firsts(rules: Dict<Rule>, marked: seq<Node>): map<string, set<string>> {
    map v | v in Names(rules) && Acyclic(rules, marked, v) :: FirstSet(rules, marked, v)
  }

  ghost predicate AltsKnown(rules: Dict<Rule>, marked: seq<Node>, self: string, alts: seq<Alt>)
    decreases alts
  {
    alts == [] || (AltKnown(rules, marked, self, alts[0]) && AltsKnown(rules, marked, self, alts[1..]))
  }

  ghost predicate AltKnown(rules: Dict<Rule>, marked: seq<Node>, self: string, a: Alt)
    decreases a
  {
    ItemsKnown(rules, marked, self, a.items)
  }

  ghost predicate ItemsKnown(rules: Dict<Rule>, marked: seq<Node>, self: string, items: seq<NamedItem>)
    decreases items
  {
    || items == []
    || (&& NamedItemKnown(rules, marked, self, items[0])
        && (PassedOverBy(rules, Firsts(rules, marked), {self}, items[0]) ==>
              ItemsKnown(rules, marked, self, items[1..])))
  }

  ghost predicate NamedItemKnown(rules: Dict<Rule>, marked: seq<Node>, self: string, n: NamedItem)
    decreases n
  {
    ItemKnown(rules, marked, self, n.item)
  }

  ghost predicate ItemKnown(rules: Dict<Rule>, marked: seq<Node>, self: string, x: Item)
    decreases x
  {
    match x
    case NameLeaf(v) => v == self || Lookup(rules, v).None? || Acyclic(rules, marked, v)
    case Group(r) => AltsKnown(rules, marked, self, r.alts)
    case RhsItem(r) => AltsKnown(rules, marked, self, r.alts)
    case Opt(n) => ItemKnown(rules, marked, self, n)
    case Repeat0(n) => ItemKnown(rules, marked, self, n)
    case Repeat1(n) => ItemKnown(rules, marked, self, n)
    case Gather(_, n) => ItemKnown(rules, marked, self, n)
    case PositiveLookahead(n) => ItemKnown(rules, marked, self, n)
    case NegativeLookahead(n) => ItemKnown(rules, marked, self, n)
    case StringLeaf(_) | Cut | Forced(_) => true
  }

  /** The sets give acyclic rules their own, and only the rule itself counts as empty among what it refers to. */
  ghost predicate Suits(
    rules: Dict<Rule>, marked: seq<Node>, self: string, sets: map<string, set<string>>, open: set<string>
  ) {
    && WellNamed(rules) && self in open && !Acyclic(rules, marked, self)
    && forall v :: Acyclic(rules, marked, v) ==> v !in open && v in sets && sets[v] == FirstSet(rules, marked, v)
  }

  lemma {:induction false} AltsAlike(
    rules: Dict<Rule>, marked: seq<Node>, self: string, sets: map<string, set<string>>, open: set<string>,
    alts: seq<Alt>
  )
    requires Suits(rules, marked, self, sets, open) && AltsKnown(rules, marked, self, alts)
    ensures AltsOver(rules, sets, open, alts)
         == AltsOver(rules, Firsts(rules, marked), {self}, alts)
    decreases alts
  {
    hide Suits, Firsts;
    if alts != [] {
      ItemsAlike(rules, marked, self, sets, open, alts[0].items);
      AltsAlike(rules, marked, self, sets, open, alts[1..]);
    }
  }

  lemma {:induction false} ItemsAlike(
    rules: Dict<Rule>, marked: seq<Node>, self: string, sets: map<string, set<string>>, open: set<string>,
    items: seq<NamedItem>
  )
    requires Suits(rules, marked, self, sets, open) && ItemsKnown(rules, marked, self, items)
    ensures ShownOver(rules, sets, open, items)
         == ShownOver(rules, Firsts(rules, marked), {self}, items)
    ensures BarredOver(rules, sets, open, items)
         == BarredOver(rules, Firsts(rules, marked), {self}, items)
    decreases items
  {
    hide Suits, Firsts;
    if items != [] {
      NamedItemAlike(rules, marked, self, sets, open, items[0]);
      if PassedOverBy(rules, sets, open, items[0]) {
        ItemsAlike(rules, marked, self, sets, open, items[1..]);
      }
    }
  }

  lemma {:induction false} NamedItemAlike(
    rules: Dict<Rule>, marked: seq<Node>, self: string, sets: map<string, set<string>>, open: set<string>,
    n: NamedItem
  )
    requires Suits(rules, marked, self, sets, open) && NamedItemKnown(rules, marked, self, n)
    ensures NamedItemOver(rules, sets, open, n)
         == NamedItemOver(rules, Firsts(rules, marked), {self}, n)
    decreases n
  {
    hide Suits, Firsts;
    ItemAlike(rules, marked, self, sets, open, n.item);
  }

  lemma {:induction false} ItemAlike(
    rules: Dict<Rule>, marked: seq<Node>, self: string, sets: map<string, set<string>>, open: set<string>,
    x: Item
  )
    requires Suits(rules, marked, self, sets, open) && ItemKnown(rules, marked, self, x)
    ensures ItemOver(rules, sets, open, x)
         == ItemOver(rules, Firsts(rules, marked), {self}, x)
    decreases x
  {
    hide Suits, Firsts;
    match x
    case NameLeaf(v) => NameAlike(rules, marked, self, sets, open, v);
    case Group(r) => AltsAlike(rules, marked, self, sets, open, r.alts);
    case RhsItem(r) => AltsAlike(rules, marked, self, sets, open, r.alts);
    case Opt(n) => ItemAlike(rules, marked, self, sets, open, n);
    case Repeat0(n) => ItemAlike(rules, marked, self, sets, open, n);
    case Repeat1(n) => ItemAlike(rules, marked, self, sets, open, n);
    case Gather(_, n) => ItemAlike(rules, marked, self, sets, open, n);
    case PositiveLookahead(n) => ItemAlike(rules, marked, self, sets, open, n);
    case NegativeLookahead(n) => ItemAlike(rules, marked, self, sets, open, n);
    case StringLeaf(_) | Cut | Forced(_) =>
  }

  lemma {:induction false} NameAlike(
    rules: Dict<Rule>, marked: seq<Node>, self: string, sets: map<string, set<string>>, open: set<string>, v: string
  )
    requires Suits(rules, marked, self, sets, open)
    requires v == self || Lookup(rules, v).None? || Acyclic(rules, marked, v)
    ensures ItemOver(rules, sets, open, NameLeaf(v))
         == ItemOver(rules, Firsts(rules, marked), {self}, NameLeaf(v))
  {
    hide Acyclic, FirstSet;
    if v != self && Lookup(rules, v).Some? {
      AcyclicIsNamed(rules, marked, v);
    }
  }

  lemma {:induction false} AcyclicIsNamed(rules: Dict<Rule>, marked: seq<Node>, v: string)
    requires WellNamed(rules) && Lookup(rules, v).Some? && Acyclic(rules, marked, v)
    ensures v in Firsts(rules, marked) && Firsts(rules, marked)[v] == FirstSet(rules, marked, v)
  {
    hide Acyclic, FirstSet;
    LookupNames(rules, v);
    var i :| 0 <= i < |rules| && rules[i].1 == Lookup(rules, v).value;
    assert rules[i].1.name in Names(rules);
  }

  lemma {:induction false} FirstSetIs(rules: Dict<Rule>, marked: seq<Node>, v: string, d: nat)
    requires Grounded(rules, marked, v, d)
    ensures FirstSet(rules, marked, v) == FirstOf(rules, marked, v, d)
  {
    hide FirstOf;
    assert Acyclic(rules, marked, v);
    var e: nat :| Grounded(rules, marked, v, e) && FirstSet(rules, marked, v) == FirstOf(rules, marked, v, e);
    if d <= e {
      GroundedSettles(rules, marked, v, d, e);
    } else {
      GroundedSettles(rules, marked, v, e, d);
    }
  }

  lemma {:induction false} FinishedAcyclic(rules: seq<Rule>, v: string)
    requires Acyclic(RuleDict(rules), ComputeNullables(RuleDict(rules)), v)
    ensures var dict := RuleDict(rules);
            var sets := Calculate(dict).sets;
            v in sets && sets[v] == FirstSet(dict, ComputeNullables(dict), v)
  {
    hide Grounded, FirstOf, FirstSet, RuleDict, Calculate, ComputeNullables;
    var dict := RuleDict(rules);
    var marked := ComputeNullables(dict);
    var d: nat :| Grounded(dict, marked, v, d);
    FirstSetsAreExact(rules, v, d);
    FirstSetIs(dict, marked, v, d);
  }

  /**
   A rule whose first-position references are to itself or to acyclic rules gets exactly the
   set of its equation, in which the references to itself count as empty: no alternative is
   left out because it is left-recursive.
   */
  lemma {:induction false} LeftRecursiveSetsAreExact(rules: seq<Rule>, v: string)
    requires var dict := RuleDict(rules);
             && Lookup(dict, v).Some? && !Acyclic(dict, ComputeNullables(dict), v)
             && AltsKnown(dict, ComputeNullables(dict), v, Lookup(dict, v).value.rhs.alts)
    ensures var dict := RuleDict(rules);
            var marked := ComputeNullables(dict);
            var sets := Calculate(dict).sets;
            v in sets && sets[v] == RuleOver(dict, marked, Firsts(dict, marked), {v}, Lookup(dict, v).value)
  {
    hide Grounded, FirstSet, Firsts, RuleDict, Calculate, ComputeNullables, Acyclic, AltsKnown;
    var dict := RuleDict(rules);
    var marked := ComputeNullables(dict);
    var sets := Calculate(dict).sets;
    GrammarsAreWellNamed(rules);
    var open := SetsSolveTheirEquations(rules, v);
    forall u | Acyclic(dict, marked, u) ensures u !in open && u in sets && sets[u] == FirstSet(dict, marked, u) {
      FinishedAcyclic(rules, u);
      NotUnderWay(dict, marked, open, u);
    }
    AltsAlike(dict, marked, v, sets, open, Lookup(dict, v).value.rhs.alts);
  }

  lemma {:induction false} NotUnderWay(rules: Dict<Rule>, marked: seq<Node>, open: set<string>, v: string)
    requires NoneGrounded(rules, marked, open) && Acyclic(rules, marked, v)
    ensures v !in open
  {
  }
}
