/**
 FirstSetCalculator.php: a memoised depth-first walk over rules that may refer
 to themselves. Arrays used as sets are sets here.
 */
module FirstSets {
  import opened Wrappers
  import opened GrammarTree
  import opened Nullables

  // firstSets and inProcess. `failed` is set once a Forced item is visited:
  // genericVisit returns null there, where an array is declared, and PHP throws.
  datatype Walk = Walk(sets: map<string, set<string>>, open: set<string>, failed: bool)

  const Start := Walk(map[], {}, false)

  /** The dictionary of a Grammar: each rule under its own name. */
  predicate WellNamed(rules: Dict<Rule>) {
    && (forall i :: 0 <= i < |rules| ==> rules[i].0 == rules[i].1.name)
    && (forall i, j :: 0 <= i < j < |rules| ==> rules[i].0 != rules[j].0)
  }

  function Names(rules: Dict<Rule>): set<string> {
    set i | 0 <= i < |rules| :: rules[i].1.name
  }

  lemma {:induction false} FewerClosed(rules: Dict<Rule>, open: set<string>, r: Rule)
    requires Has(rules, r) && r.name !in open
    ensures |Names(rules) - (open + {r.name})| < |Names(rules) - open|
  {
    var i :| 0 <= i < |rules| && rules[i].1 == r;
    assert rules[i].1.name in Names(rules) - open;
    SmallerSet(Names(rules) - (open + {r.name}), Names(rules) - open);
  }

  predicate MayBeSkipped(x: Item) {
    x.Opt? || x.NegativeLookahead? || x.Repeat0?
  }

  /** The same rules are under way, and the set of one that is finished stays. */
  predicate Kept(w: Walk, end: Walk) {
    && end.open == w.open && w.sets.Keys <= end.sets.Keys
    && (forall v :: v in w.sets && v !in w.open ==> end.sets[v] == w.sets[v])
    && (w.failed ==> end.failed)
  }

  // The visit methods, with the state they change passed along.

  function WalkRule(rules: Dict<Rule>, marked: seq<Node>, w: Walk, r: Rule): (o: (set<string>, Walk))
    requires Has(rules, r)
    ensures Kept(w, o.1)
    decreases |Names(rules) - w.open|, 0, r
  {
    if r.name in w.open then ({}, w)
    else if r.name in w.sets then (w.sets[r.name], w)
    else
      FewerClosed(rules, w.open, r);
      var (found, next) := WalkAlts(rules, marked, w.(open := w.open + {r.name}), r.rhs.alts);
      var terminals := if RuleNode(r) in marked then found + {""} else found;
      (terminals, next.(sets := next.sets[r.name := terminals], open := next.open - {r.name}))
  }

  function WalkAlts(rules: Dict<Rule>, marked: seq<Node>, w: Walk, alts: seq<Alt>): (o: (set<string>, Walk))
    ensures Kept(w, o.1)
    decreases |Names(rules) - w.open|, 1, alts, 0
  {
    if alts == [] then ({}, w)
    else
      var (first, next) := WalkAlt(rules, marked, w, alts[0]);
      var (rest, end) := WalkAlts(rules, marked, next, alts[1..]);
      (first + rest, end)
  }

  function WalkAlt(rules: Dict<Rule>, marked: seq<Node>, w: Walk, a: Alt): (o: (set<string>, Walk))
    ensures Kept(w, o.1)
    decreases |Names(rules) - w.open|, 1, a, 0
  {
    var (result, end) := WalkItems(rules, marked, w, a.items, {}, {});
    (result - {""}, end)
  }

  // The loop of visitAlt, with the terminals found and those to be removed so far.
  function WalkItems(
    rules: Dict<Rule>, marked: seq<Node>, w: Walk, items: seq<NamedItem>, found: set<string>, removed: set<string>
  ): (o: (set<string>, Walk))
    ensures Kept(w, o.1)
    decreases |Names(rules) - w.open|, 1, items, 0
  {
    if items == [] then (found, w)
    else
      var (added, next) := WalkNamedItem(rules, marked, w, items[0]);
      var removed' := if items[0].item.NegativeLookahead? then removed + added else removed;
      var found' := (found + added) - removed';
      if "" in added || MayBeSkipped(items[0].item) then
        WalkItems(rules, marked, next, items[1..], found', removed')
      else (found', next)
  }

  function WalkNamedItem(rules: Dict<Rule>, marked: seq<Node>, w: Walk, n: NamedItem): (o: (set<string>, Walk))
    ensures Kept(w, o.1)
    decreases |Names(rules) - w.open|, 1, n, 0
  {
    WalkItem(rules, marked, w, n.item)
  }

  function WalkItem(rules: Dict<Rule>, marked: seq<Node>, w: Walk, x: Item): (o: (set<string>, Walk))
    ensures Kept(w, o.1)
    decreases |Names(rules) - w.open|, 1, x, 0
  {
    match x
    case NameLeaf(v) =>
      var r := Lookup(rules, v);
      if r.None? then ({v}, w)
      else if v !in w.sets then
        var (found, next) := WalkRule(rules, marked, w, r.value);
        (found, next.(sets := next.sets[v := found]))
      else if v in w.open then ({}, w)
      else (w.sets[v], w)
    case StringLeaf(v) => ({v}, w)
    case Group(r) => WalkAlts(rules, marked, w, r.alts)
    case RhsItem(r) => WalkAlts(rules, marked, w, r.alts)
    case Opt(n) => WalkItem(rules, marked, w, n)
    case Repeat0(n) => WalkItem(rules, marked, w, n)
    case Repeat1(n) => WalkItem(rules, marked, w, n)
    case Gather(_, n) => WalkItem(rules, marked, w, n)
    case PositiveLookahead(n) => WalkItem(rules, marked, w, n)
    case NegativeLookahead(n) => WalkItem(rules, marked, w, n)
    case Cut => ({}, w)
    case Forced(_) => ({}, w.(failed := true))
  }

  function WalkRules(rules: Dict<Rule>, marked: seq<Node>, w: Walk, todo: Dict<Rule>): (o: Walk)
    requires forall i :: 0 <= i < |todo| ==> Has(rules, todo[i].1)
    ensures Kept(w, o)
    decreases |todo|
  {
    if todo == [] then w
    else WalkRules(rules, marked, WalkRule(rules, marked, w, todo[0].1).1, todo[1..])
  }

  /** calculate */
  function Calculate(rules: Dict<Rule>): Walk {
    assert forall i :: 0 <= i < |rules| ==> Has(rules, rules[i].1);
    WalkRules(rules, ComputeNullables(rules), Start, rules)
  }

  class FirstSetCalculator {
    const rules: Dict<Rule>
    const nullables: seq<Node>
    var firstSets: map<string, set<string>>
    var inProcess: set<string>
    var failed: bool

    constructor (rules: Dict<Rule>)
      ensures this.rules == rules && nullables == ComputeNullables(rules) && Now() == Start
    {
      var marked := ComputeAll(rules);
      this.rules := rules;
      nullables := marked;
      firstSets, inProcess, failed := map[], {}, false;
    }

    function Now(): Walk
      reads this
    {
      Walk(firstSets, inProcess, failed)
    }

    method OfAll()
      requires Now() == Start && nullables == ComputeNullables(rules)
      modifies this
      ensures Now() == Calculate(rules)
    {
      assert forall k :: 0 <= k < |rules| ==> Has(rules, rules[k].1);
      var i := 0;
      while i < |rules|
        invariant i <= |rules|
        invariant WalkRules(rules, nullables, Now(), rules[i..]) == WalkRules(rules, nullables, Start, rules)
      {
        assert rules[i..][0] == rules[i] && rules[i..][1..] == rules[i + 1..];
        var _ := OfRule(rules[i].1);
        i := i + 1;
      }
    }

    method OfRule(r: Rule) returns (terminals: set<string>)
      requires Has(rules, r)
      modifies this
      ensures (terminals, Now()) == WalkRule(rules, nullables, old(Now()), r)
      decreases |Names(rules) - inProcess|, 0, r
    {
      if r.name in inProcess {
        return {};
      }
      if r.name !in firstSets {
        FewerClosed(rules, inProcess, r);
        inProcess := inProcess + {r.name};
        terminals := OfRhs(r.rhs);
        if RuleNode(r) in nullables {
          terminals := terminals + {""};
        }
        firstSets := firstSets[r.name := terminals];
        inProcess := inProcess - {r.name};
      }
      return firstSets[r.name];
    }

    method OfRhs(r: Rhs) returns (result: set<string>)
      modifies this
      ensures (result, Now()) == WalkAlts(rules, nullables, old(Now()), r.alts)
      decreases |Names(rules) - inProcess|, 1, r, 1
    {
      result := {};
      var i := 0;
      while i < |r.alts|
        invariant i <= |r.alts| && inProcess == old(inProcess)
        invariant var rest := WalkAlts(rules, nullables, Now(), r.alts[i..]);
                  var whole := WalkAlts(rules, nullables, old(Now()), r.alts);
                  result + rest.0 == whole.0 && rest.1 == whole.1
      {
        assert r.alts[i..][0] == r.alts[i] && r.alts[i..][1..] == r.alts[i + 1..];
        var added := OfAlt(r.alts[i]);
        result := result + added;
        i := i + 1;
      }
    }

    method OfAlt(a: Alt) returns (result: set<string>)
      modifies this
      ensures (result, Now()) == WalkAlt(rules, nullables, old(Now()), a)
      decreases |Names(rules) - inProcess|, 1, a, 1
    {
      result := {};
      var toRemove: set<string> := {};
      var i := 0;
      ghost var whole := WalkItems(rules, nullables, old(Now()), a.items, {}, {});
      while i < |a.items|
        invariant i <= |a.items| && inProcess == old(inProcess)
        invariant WalkItems(rules, nullables, Now(), a.items[i..], result, toRemove)
               == whole
      {
        var other := a.items[i];
        ghost var found, removed := result, toRemove;
        assert a.items[i..][0] == other && a.items[i..][1..] == a.items[i + 1..];
        var added := OfNamedItem(other);
        if other.item.NegativeLookahead? {
          toRemove := toRemove + added;
        }
        result := result + added;
        if toRemove != {} {
          result := result - toRemove;
        }
        assert toRemove == if other.item.NegativeLookahead? then removed + added else removed;
        assert result == (found + added) - toRemove;
        if "" !in added && !MayBeSkipped(other.item) {
          assert (result, Now()) == whole;
          return result - {""};
        }
        i := i + 1;
      }
      result := result - {""};
    }

    method OfNamedItem(n: NamedItem) returns (result: set<string>)
      modifies this
      ensures (result, Now()) == WalkNamedItem(rules, nullables, old(Now()), n)
      decreases |Names(rules) - inProcess|, 1, n, 1
    {
      result := OfItem(n.item);
    }

    method OfItem(x: Item) returns (result: set<string>)
      modifies this
      ensures (result, Now()) == WalkItem(rules, nullables, old(Now()), x)
      decreases |Names(rules) - inProcess|, 1, x, 1
    {
      match x
      case NameLeaf(v) =>
        var r := Lookup(rules, v);
        if r.None? {
          return {v};
        }
        if v !in firstSets {
          var found := OfRule(r.value);
          firstSets := firstSets[v := found];
        } else if v in inProcess {
          return {};
        }
        return firstSets[v];
      case StringLeaf(v) => result := {v};
      case Group(r) => result := OfRhs(r);
      case RhsItem(r) => result := OfRhs(r);
      case Opt(n) => result := OfItem(n);
      case Repeat0(n) => result := OfItem(n);
      case Repeat1(n) => result := OfItem(n);
      case Gather(_, n) => result := OfItem(n);
      case PositiveLookahead(n) => result := OfItem(n);
      case NegativeLookahead(n) => result := OfItem(n);
      case Cut => result := {};
      case Forced(_) =>
        failed := true;
        result := {};
    }
  }

  /** The dictionary that the constructor of Grammar builds names each rule by itself. */
  lemma {:induction false} PutKeepsNames(m: Dict<Rule>, r: Rule)
    requires WellNamed(m)
    ensures WellNamed(Put(m, r.name, r))
    ensures forall i :: 0 <= i < |Put(m, r.name, r)| ==>
              Put(m, r.name, r)[i].0 == r.name || exists j :: 0 <= j < |m| && m[j].0 == Put(m, r.name, r)[i].0
  {
    if m != [] && m[0].0 != r.name {
      PutKeepsNames(m[1..], r);
      var rest := Put(m[1..], r.name, r);
      forall i | 0 <= i < |rest| ensures rest[i].0 != m[0].0
        ensures rest[i].0 == r.name || exists j :: 0 <= j < |m| && m[j].0 == rest[i].0
      {
        if rest[i].0 != r.name {
          var j :| 0 <= j < |m[1..]| && m[1..][j].0 == rest[i].0;
          assert m[j + 1].0 == rest[i].0;
        }
      }
    }
  }

  lemma {:induction false} GrammarsAreWellNamed(rules: seq<Rule>)
    ensures WellNamed(RuleDict(rules))
  {
    if rules != [] {
      GrammarsAreWellNamed(rules[..|rules| - 1]);
      PutKeepsNames(RuleDict(rules[..|rules| - 1]), rules[|rules| - 1]);
    }
  }

  lemma {:induction false} LookupNames(rules: Dict<Rule>, v: string)
    requires WellNamed(rules)
    ensures Lookup(rules, v).Some? ==> Lookup(rules, v).value.name == v
  {
    if rules != [] {
      assert WellNamed(rules[1..]);
      LookupNames(rules[1..], v);
    }
  }

  lemma {:induction false} LookupFinds(rules: Dict<Rule>, r: Rule)
    requires WellNamed(rules) && Has(rules, r)
    ensures Lookup(rules, r.name) == Some(r)
  {
    var i :| 0 <= i < |rules| && rules[i].1 == r;
    if i > 0 {
      assert rules[0].0 != rules[i].0;
      assert rules[1..][i - 1].1 == r && WellNamed(rules[1..]);
      LookupFinds(rules[1..], r);
    }
  }

  // Which terminals can come first: derivations that go through at most `depth` rules.

  ghost predicate RuleStarts(rules: Dict<Rule>, marked: seq<Node>, r: Rule, t: string, depth: nat)
    decreases depth, 1, r
  {
    AltsStart(rules, marked, r.rhs.alts, t, depth) || (t == "" && RuleNode(r) in marked)
  }

  ghost predicate AltsStart(rules: Dict<Rule>, marked: seq<Node>, alts: seq<Alt>, t: string, depth: nat)
    decreases depth, 0, alts
  {
    alts != [] && (AltStarts(rules, marked, alts[0], t, depth) || AltsStart(rules, marked, alts[1..], t, depth))
  }

  ghost predicate AltStarts(rules: Dict<Rule>, marked: seq<Node>, a: Alt, t: string, depth: nat)
    decreases depth, 0, a
  {
    t != "" && ItemsStart(rules, marked, a.items, t, depth)
  }

  // A terminal of a later item counts when all the earlier items can be passed over.
  ghost predicate ItemsStart(rules: Dict<Rule>, marked: seq<Node>, items: seq<NamedItem>, t: string, depth: nat)
    decreases depth, 0, items
  {
    && items != []
    && (|| (!items[0].item.NegativeLookahead? && NamedItemStarts(rules, marked, items[0], t, depth))
        || (&& (MayBeSkipped(items[0].item) || NamedItemStarts(rules, marked, items[0], "", depth))
            && ItemsStart(rules, marked, items[1..], t, depth)))
  }

  ghost predicate NamedItemStarts(rules: Dict<Rule>, marked: seq<Node>, n: NamedItem, t: string, depth: nat)
    decreases depth, 0, n
  {
    ItemStarts(rules, marked, n.item, t, depth)
  }

  ghost predicate ItemStarts(rules: Dict<Rule>, marked: seq<Node>, x: Item, t: string, depth: nat)
    decreases depth, 0, x
  {
    match x
    case NameLeaf(v) =>
      if Lookup(rules, v).None? then t == v
      else depth > 0 && RuleStarts(rules, marked, Lookup(rules, v).value, t, depth - 1)
    case StringLeaf(v) => t == v
    case Group(r) => AltsStart(rules, marked, r.alts, t, depth)
    case RhsItem(r) => AltsStart(rules, marked, r.alts, t, depth)
    case Opt(n) => ItemStarts(rules, marked, n, t, depth)
    case Repeat0(n) => ItemStarts(rules, marked, n, t, depth)
    case Repeat1(n) => ItemStarts(rules, marked, n, t, depth)
    case Gather(_, n) => ItemStarts(rules, marked, n, t, depth)
    case PositiveLookahead(n) => ItemStarts(rules, marked, n, t, depth)
    case NegativeLookahead(n) => ItemStarts(rules, marked, n, t, depth)
    case Cut => false
    case Forced(_) => false
  }

  lemma {:induction false} RuleStartsDeeper(
    rules: Dict<Rule>, marked: seq<Node>, r: Rule, t: string, d: nat, e: nat
  )
    requires RuleStarts(rules, marked, r, t, d) && d <= e
    ensures RuleStarts(rules, marked, r, t, e)
    decreases d, 1, r
  {
    if AltsStart(rules, marked, r.rhs.alts, t, d) {
      AltsStartDeeper(rules, marked, r.rhs.alts, t, d, e);
    }
  }

  lemma {:induction false} AltsStartDeeper(
    rules: Dict<Rule>, marked: seq<Node>, alts: seq<Alt>, t: string, d: nat, e: nat
  )
    requires AltsStart(rules, marked, alts, t, d) && d <= e
    ensures AltsStart(rules, marked, alts, t, e)
    decreases d, 0, alts
  {
    if AltStarts(rules, marked, alts[0], t, d) {
      ItemsStartDeeper(rules, marked, alts[0].items, t, d, e);
    } else {
      AltsStartDeeper(rules, marked, alts[1..], t, d, e);
    }
  }

  lemma {:induction false} ItemsStartDeeper(
    rules: Dict<Rule>, marked: seq<Node>, items: seq<NamedItem>, t: string, d: nat, e: nat
  )
    requires ItemsStart(rules, marked, items, t, d) && d <= e
    ensures ItemsStart(rules, marked, items, t, e)
    decreases d, 0, items
  {
    if !items[0].item.NegativeLookahead? && NamedItemStarts(rules, marked, items[0], t, d) {
      NamedItemStartsDeeper(rules, marked, items[0], t, d, e);
    } else {
      if !MayBeSkipped(items[0].item) {
        NamedItemStartsDeeper(rules, marked, items[0], "", d, e);
      }
      ItemsStartDeeper(rules, marked, items[1..], t, d, e);
    }
  }

  lemma {:induction false} NamedItemStartsDeeper(
    rules: Dict<Rule>, marked: seq<Node>, n: NamedItem, t: string, d: nat, e: nat
  )
    requires NamedItemStarts(rules, marked, n, t, d) && d <= e
    ensures NamedItemStarts(rules, marked, n, t, e)
    decreases d, 0, n
  {
    ItemStartsDeeper(rules, marked, n.item, t, d, e);
  }

  lemma {:induction false} ItemStartsDeeper(
    rules: Dict<Rule>, marked: seq<Node>, x: Item, t: string, d: nat, e: nat
  )
    requires ItemStarts(rules, marked, x, t, d) && d <= e
    ensures ItemStarts(rules, marked, x, t, e)
    decreases d, 0, x
  {
    match x
    case NameLeaf(v) =>
      if Lookup(rules, v).Some? {
        RuleStartsDeeper(rules, marked, Lookup(rules, v).value, t, d - 1, e - 1);
      }
    case Group(r) => AltsStartDeeper(rules, marked, r.alts, t, d, e);
    case RhsItem(r) => AltsStartDeeper(rules, marked, r.alts, t, d, e);
    case StringLeaf(_) | Cut | Forced(_) =>
    case Opt(n) => ItemStartsDeeper(rules, marked, n, t, d, e);
    case Repeat0(n) => ItemStartsDeeper(rules, marked, n, t, d, e);
    case Repeat1(n) => ItemStartsDeeper(rules, marked, n, t, d, e);
    case Gather(_, n) => ItemStartsDeeper(rules, marked, n, t, d, e);
    case PositiveLookahead(n) => ItemStartsDeeper(rules, marked, n, t, d, e);
    case NegativeLookahead(n) => ItemStartsDeeper(rules, marked, n, t, d, e);
  }

  // Soundness

  ghost predicate MayStart(rules: Dict<Rule>, marked: seq<Node>, v: string, t: string) {
    Lookup(rules, v).Some? && exists d: nat :: RuleStarts(rules, marked, Lookup(rules, v).value, t, d)
  }

  /** Every terminal recorded so far has a derivation. */
  ghost predicate Sound(rules: Dict<Rule>, marked: seq<Node>, w: Walk) {
    forall v, t :: v in w.sets && t in w.sets[v] ==> MayStart(rules, marked, v, t)
  }

  lemma {:induction false} WalkRuleSound(rules: Dict<Rule>, marked: seq<Node>, w: Walk, r: Rule, t: string)
    requires WellNamed(rules) && Has(rules, r) && Sound(rules, marked, w)
    ensures var (found, end) := WalkRule(rules, marked, w, r);
            Sound(rules, marked, end) && (t in found ==> exists d: nat :: RuleStarts(rules, marked, r, t, d))
    decreases |Names(rules) - w.open|, 0, r
  {
    LookupFinds(rules, r);
    if r.name in w.open {
    } else if r.name in w.sets {
      assert t in w.sets[r.name] ==> MayStart(rules, marked, r.name, t);
    } else {
      FewerClosed(rules, w.open, r);
      var inner := w.(open := w.open + {r.name});
      var (found, next) := WalkAlts(rules, marked, inner, r.rhs.alts);
      WalkAltsSound(rules, marked, inner, r.rhs.alts, t);
      var (terminals, end) := WalkRule(rules, marked, w, r);
      forall u | u in terminals ensures exists d: nat :: RuleStarts(rules, marked, r, u, d)
      {
        if u in found {
          WalkAltsSound(rules, marked, inner, r.rhs.alts, u);
          var d: nat :| AltsStart(rules, marked, r.rhs.alts, u, d);
          assert RuleStarts(rules, marked, r, u, d);
        } else {
          assert RuleStarts(rules, marked, r, u, 0);
        }
      }
    }
  }

  lemma {:induction false} WalkAltsSound(rules: Dict<Rule>, marked: seq<Node>, w: Walk, alts: seq<Alt>, t: string)
    requires WellNamed(rules) && Sound(rules, marked, w)
    ensures var (found, end) := WalkAlts(rules, marked, w, alts);
            Sound(rules, marked, end) && (t in found ==> exists d: nat :: AltsStart(rules, marked, alts, t, d))
    decreases |Names(rules) - w.open|, 1, alts, 0
  {
    if alts != [] {
      WalkAltSound(rules, marked, w, alts[0], t);
      var (first, next) := WalkAlt(rules, marked, w, alts[0]);
      WalkAltsSound(rules, marked, next, alts[1..], t);
      if t in first {
        var d: nat :| AltStarts(rules, marked, alts[0], t, d);
        assert AltsStart(rules, marked, alts, t, d);
      } else if t in WalkAlts(rules, marked, w, alts).0 {
        var d: nat :| AltsStart(rules, marked, alts[1..], t, d);
        assert AltsStart(rules, marked, alts, t, d);
      }
    }
  }

  lemma {:induction false} WalkAltSound(rules: Dict<Rule>, marked: seq<Node>, w: Walk, a: Alt, t: string)
    requires WellNamed(rules) && Sound(rules, marked, w)
    ensures var (found, end) := WalkAlt(rules, marked, w, a);
            Sound(rules, marked, end) && (t in found ==> exists d: nat :: AltStarts(rules, marked, a, t, d))
    decreases |Names(rules) - w.open|, 1, a, 0
  {
    WalkItemsSound(rules, marked, w, a.items, {}, {}, t);
    if t in WalkAlt(rules, marked, w, a).0 {
      var d: nat :| ItemsStart(rules, marked, a.items, t, d);
      assert AltStarts(rules, marked, a, t, d);
    }
  }

  lemma {:induction false} WalkItemsSound(
    rules: Dict<Rule>, marked: seq<Node>, w: Walk, items: seq<NamedItem>,
    found: set<string>, removed: set<string>, t: string
  )
    requires WellNamed(rules) && Sound(rules, marked, w)
    ensures var (all, end) := WalkItems(rules, marked, w, items, found, removed);
            Sound(rules, marked, end) &&
            (t in all && t !in found ==> exists d: nat :: ItemsStart(rules, marked, items, t, d))
    decreases |Names(rules) - w.open|, 1, items, 0
  {
    if items != [] {
      var (added, next) := WalkNamedItem(rules, marked, w, items[0]);
      WalkNamedItemSound(rules, marked, w, items[0], t);
      WalkNamedItemSound(rules, marked, w, items[0], "");
      var removed' := if items[0].item.NegativeLookahead? then removed + added else removed;
      var found' := (found + added) - removed';
      var on := "" in added || MayBeSkipped(items[0].item);
      if on {
        WalkItemsSound(rules, marked, next, items[1..], found', removed', t);
      }
      if t in found' && t !in found {
        var d: nat :| NamedItemStarts(rules, marked, items[0], t, d);
        assert ItemsStart(rules, marked, items, t, d);
      } else if t in WalkItems(rules, marked, w, items, found, removed).0 && t !in found {
        var d: nat :| ItemsStart(rules, marked, items[1..], t, d);
        if MayBeSkipped(items[0].item) {
          assert ItemsStart(rules, marked, items, t, d);
        } else {
          var e: nat :| NamedItemStarts(rules, marked, items[0], "", e);
          NamedItemStartsDeeper(rules, marked, items[0], "", e, d + e);
          ItemsStartDeeper(rules, marked, items[1..], t, d, d + e);
          assert ItemsStart(rules, marked, items, t, d + e);
        }
      }
    }
  }

  lemma {:induction false} WalkNamedItemSound(
    rules: Dict<Rule>, marked: seq<Node>, w: Walk, n: NamedItem, t: string
  )
    requires WellNamed(rules) && Sound(rules, marked, w)
    ensures var (found, end) := WalkNamedItem(rules, marked, w, n);
            Sound(rules, marked, end) && (t in found ==> exists d: nat :: NamedItemStarts(rules, marked, n, t, d))
    decreases |Names(rules) - w.open|, 1, n, 0
  {
    WalkItemSound(rules, marked, w, n.item, t);
    if t in WalkNamedItem(rules, marked, w, n).0 {
      var d: nat :| ItemStarts(rules, marked, n.item, t, d);
      assert NamedItemStarts(rules, marked, n, t, d);
    }
  }

  lemma {:induction false} WalkItemSound(rules: Dict<Rule>, marked: seq<Node>, w: Walk, x: Item, t: string)
    requires WellNamed(rules) && Sound(rules, marked, w)
    ensures var (found, end) := WalkItem(rules, marked, w, x);
            Sound(rules, marked, end) && (t in found ==> exists d: nat :: ItemStarts(rules, marked, x, t, d))
    decreases |Names(rules) - w.open|, 1, x, 0
  {
    match x
    case NameLeaf(v) => NameSound(rules, marked, w, v, t);
    case StringLeaf(v) => assert t == v ==> ItemStarts(rules, marked, x, t, 0);
    case Group(r) => RhsSound(rules, marked, w, x, r, t);
    case RhsItem(r) => RhsSound(rules, marked, w, x, r, t);
    case Cut | Forced(_) =>
    case Opt(n) => NestedSound(rules, marked, w, x, n, t);
    case Repeat0(n) => NestedSound(rules, marked, w, x, n, t);
    case Repeat1(n) => NestedSound(rules, marked, w, x, n, t);
    case Gather(_, n) => NestedSound(rules, marked, w, x, n, t);
    case PositiveLookahead(n) => NestedSound(rules, marked, w, x, n, t);
    case NegativeLookahead(n) => NestedSound(rules, marked, w, x, n, t);
  }

  ghost predicate Nests(x: Item, n: Item) {
    || x == Opt(n) || x == Repeat0(n) || x == Repeat1(n) || (x.Gather? && x.node == n)
    || x == PositiveLookahead(n) || x == NegativeLookahead(n)
  }

  lemma {:induction false} NestedSound(rules: Dict<Rule>, marked: seq<Node>, w: Walk, x: Item, n: Item, t: string)
    requires WellNamed(rules) && Sound(rules, marked, w) && Nests(x, n)
    ensures var (found, end) := WalkItem(rules, marked, w, x);
            Sound(rules, marked, end) && (t in found ==> exists d: nat :: ItemStarts(rules, marked, x, t, d))
    decreases |Names(rules) - w.open|, 1, n, 1
  {
    WalkItemSound(rules, marked, w, n, t);
    if t in WalkItem(rules, marked, w, x).0 {
      var d: nat :| ItemStarts(rules, marked, n, t, d);
      assert ItemStarts(rules, marked, x, t, d);
    }
  }

  lemma {:induction false} RhsSound(rules: Dict<Rule>, marked: seq<Node>, w: Walk, x: Item, r: Rhs, t: string)
    requires WellNamed(rules) && Sound(rules, marked, w) && (x == Group(r) || x == RhsItem(r))
    ensures var (found, end) := WalkItem(rules, marked, w, x);
            Sound(rules, marked, end) && (t in found ==> exists d: nat :: ItemStarts(rules, marked, x, t, d))
    decreases |Names(rules) - w.open|, 1, r, 1
  {
    WalkAltsSound(rules, marked, w, r.alts, t);
    if t in WalkItem(rules, marked, w, x).0 {
      var d: nat :| AltsStart(rules, marked, r.alts, t, d);
      assert ItemStarts(rules, marked, x, t, d);
    }
  }

  lemma {:induction false} NameSound(rules: Dict<Rule>, marked: seq<Node>, w: Walk, v: string, t: string)
    requires WellNamed(rules) && Sound(rules, marked, w)
    ensures var (found, end) := WalkItem(rules, marked, w, NameLeaf(v));
            Sound(rules, marked, end) && (t in found ==> exists d: nat :: ItemStarts(rules, marked, NameLeaf(v), t, d))
    decreases |Names(rules) - w.open|, 0
  {
    var r := Lookup(rules, v);
    if r.None? {
      assert t == v ==> ItemStarts(rules, marked, NameLeaf(v), t, 0);
    } else {
      LookupNames(rules, v);
      var (found, end) := WalkItem(rules, marked, w, NameLeaf(v));
      if v !in w.sets {
        forall u | u in found ensures MayStart(rules, marked, v, u)
        {
          WalkRuleSound(rules, marked, w, r.value, u);
        }
        WalkRuleSound(rules, marked, w, r.value, t);
      }
      if t in found {
        assert MayStart(rules, marked, v, t);
        var d: nat :| RuleStarts(rules, marked, r.value, t, d);
        assert ItemStarts(rules, marked, NameLeaf(v), t, d + 1);
      }
    }
  }

  lemma {:induction false} WalkRulesSound(rules: Dict<Rule>, marked: seq<Node>, w: Walk, todo: Dict<Rule>)
    requires WellNamed(rules) && Sound(rules, marked, w)
    requires forall i :: 0 <= i < |todo| ==> Has(rules, todo[i].1)
    ensures Sound(rules, marked, WalkRules(rules, marked, w, todo))
    decreases |todo|
  {
    if todo != [] {
      WalkRuleSound(rules, marked, w, todo[0].1, "");
      WalkRulesSound(rules, marked, WalkRule(rules, marked, w, todo[0].1).1, todo[1..]);
    }
  }

  /** In every grammar, recursive or not, each terminal reported for a rule can come first in it. */
  lemma {:induction false} FirstSetsAreSound(rules: seq<Rule>, v: string, t: string)
    ensures var dict := RuleDict(rules);
            var sets := Calculate(dict).sets;
            v in sets && t in sets[v] ==> MayStart(dict, ComputeNullables(dict), v, t)
  {
    var dict := RuleDict(rules);
    GrammarsAreWellNamed(rules);
    assert forall i :: 0 <= i < |dict| ==> Has(dict, dict[i].1);
    WalkRulesSound(dict, ComputeNullables(dict), Start, dict);
  }
}
