/**
 GrammarParser.php on top of the cache of Parser.php. A method `ReadX` is the
 source's rule method `x`, which only calls `Memoize`; `XBody` is the closure
 it passes, which saves the index, advances it and puts it back as the source
 does. The ghost fields record which bodies are under way and which have run.
 */
module PackratParser {
  import opened Wrappers
  import opened GrammarTree
  import opened GrammarDescent

  // What the cache holds: null, a token, a string, an array or a tree.
  datatype Value =
    | Null
    | TokenV(token: Token)
    | TextV(text: string)
    | GrammarV(grammar: Grammar)
    | MetasV(metas: seq<Meta>)
    | MetaV(meta: Meta)
    | RulesV(rules: seq<Rule>)
    | RuleV(rule: Rule)
    | RuleNameV(ruleName: RuleName)
    | RhsV(rhs: Rhs)
    | AltV(alt: Alt)
    | ItemsV(items: seq<NamedItem>)
    | NamedItemV(namedItem: NamedItem)
    | ItemV(item: Item)

  datatype RuleId =
    | StartRule | GrammarRule | MetasRule | MetaRule | RulesRule | RuleRule | RuleNameRule
    | MemoFlagRule | AltsRule | MoreAltsRule | AltRule | ItemsRule | NamedItemRule
    | ForcedAtomRule | LookaheadRule | ItemRule | AtomRule | ActionRule | AnnotationRule
    | TargetAtomsRule | TargetAtomRule | NameRule | StringRule | NumberRule | OpRule
    | ExpectRule(expected: string)

  datatype Key = Key(index: nat, rule: RuleId)

  datatype Outcome = Outcome(value: Value, end: nat)

  /** PHP's truth value of a nullable string and of a nullable array. */
  predicate TrueText(o: Option<string>) {
    o.Some? && TruthyText(o.value)
  }

  predicate TrueList<T(==)>(o: Option<seq<T>>) {
    o.Some? && o.value != []
  }

  /** What the cache-free descent gives for a rule at an index. */
  function Run(ts: Tokens, i: nat, rule: RuleId): (o: Outcome)
    requires i <= |ts|
    ensures o.value.Null? ==> o.end == i
    ensures !o.value.Null? ==> i < o.end <= |ts|
    ensures !o.value.Null? && rule !in {StartRule, ExpectRule(""), ExpectRule("EndMarker")} ==> o.end <= Fence(ts)
  {
    match rule
    case StartRule =>
      var r := Start(ts, i);
      if r.Ok? then Outcome(GrammarV(r.value), r.end) else Outcome(Null, i)
    case GrammarRule =>
      var r := GrammarAt(ts, i);
      if r.Ok? then Outcome(GrammarV(r.value), r.end) else Outcome(Null, i)
    case MetasRule =>
      var r := Metas(ts, i);
      if r.Ok? then Outcome(MetasV(r.value), r.end) else Outcome(Null, i)
    case MetaRule =>
      var r := MetaAt(ts, i);
      if r.Ok? then Outcome(MetaV(r.value), r.end) else Outcome(Null, i)
    case RulesRule =>
      var r := Rules(ts, i);
      if r.Ok? then Outcome(RulesV(r.value), r.end) else Outcome(Null, i)
    case RuleRule =>
      var r := RuleAt(ts, i);
      if r.Ok? then Outcome(RuleV(r.value), r.end) else Outcome(Null, i)
    case RuleNameRule =>
      var r := RuleNameAt(ts, i);
      if r.Ok? then Outcome(RuleNameV(r.value), r.end) else Outcome(Null, i)
    case MemoFlagRule =>
      var r := MemoFlag(ts, i);
      if r.Ok? then Outcome(TextV(r.value), r.end) else Outcome(Null, i)
    case AltsRule =>
      var r := Alts(ts, i);
      if r.Ok? then Outcome(RhsV(r.value), r.end) else Outcome(Null, i)
    case MoreAltsRule =>
      var r := MoreAlts(ts, i);
      if r.Ok? then Outcome(RhsV(r.value), r.end) else Outcome(Null, i)
    case AltRule =>
      var r := AltAt(ts, i);
      if r.Ok? then Outcome(AltV(r.value), r.end) else Outcome(Null, i)
    case ItemsRule =>
      var r := Items(ts, i);
      if r.Ok? then Outcome(ItemsV(r.value), r.end) else Outcome(Null, i)
    case NamedItemRule =>
      var r := NamedItemAt(ts, i);
      if r.Ok? then Outcome(NamedItemV(r.value), r.end) else Outcome(Null, i)
    case ForcedAtomRule =>
      var r := ForcedAtom(ts, i);
      if r.Ok? then Outcome(ItemV(r.value), r.end) else Outcome(Null, i)
    case LookaheadRule =>
      var r := LookaheadAt(ts, i);
      if r.Ok? then Outcome(ItemV(r.value), r.end) else Outcome(Null, i)
    case ItemRule =>
      var r := ItemAt(ts, i);
      if r.Ok? then Outcome(ItemV(r.value), r.end) else Outcome(Null, i)
    case AtomRule =>
      var r := AtomAt(ts, i);
      if r.Ok? then Outcome(ItemV(r.value), r.end) else Outcome(Null, i)
    case ActionRule =>
      var r := Action(ts, i);
      if r.Ok? then Outcome(TextV(r.value), r.end) else Outcome(Null, i)
    case AnnotationRule =>
      var r := Annotation(ts, i);
      if r.Ok? then Outcome(TextV(r.value), r.end) else Outcome(Null, i)
    case TargetAtomsRule =>
      var r := TargetAtoms(ts, i);
      if r.Ok? then Outcome(TextV(r.value), r.end) else Outcome(Null, i)
    case TargetAtomRule =>
      var r := TargetAtom(ts, i);
      if r.Ok? then Outcome(TextV(r.value), r.end) else Outcome(Null, i)
    case NameRule =>
      var r := OfType(ts, i, Name);
      if r.Ok? then Outcome(TokenV(r.value), r.end) else Outcome(Null, i)
    case StringRule =>
      var r := OfType(ts, i, String);
      if r.Ok? then Outcome(TokenV(r.value), r.end) else Outcome(Null, i)
    case NumberRule =>
      var r := OfType(ts, i, Number);
      if r.Ok? then Outcome(TokenV(r.value), r.end) else Outcome(Null, i)
    case OpRule =>
      var r := OfType(ts, i, Op);
      if r.Ok? then Outcome(TokenV(r.value), r.end) else Outcome(Null, i)
    case ExpectRule(expected) =>
      var r := Expect(ts, i, expected);
      if r.Ok? then Outcome(TokenV(r.value), r.end) else Outcome(Null, i)
  }

  /** A result and the index it leaves are those the descent gives from `start`. */
  predicate Gives<T(==)>(result: Option<T>, index: nat, start: nat, p: Parsed<T>) {
    match p
    case Fail => result == None && index == start
    case Ok(v, end) => result == Some(v) && index == end
  }

  /** As `Gives`, for a part of a body that leaves the index for the body to put back. */
  predicate Tries<T(==)>(result: Option<T>, index: nat, p: Parsed<T>) {
    p == if result.Some? then Ok(result.value, index) else Fail
  }

  // A rule calls only rules of lower rank before it has moved the index.
  function Rank(rule: RuleId): nat {
    match rule
    case StartRule => 9
    case GrammarRule => 8
    case RulesRule => 7
    case RuleRule => 6
    case AltsRule => 6
    case AltRule => 5
    case ItemsRule => 4
    case NamedItemRule => 3
    case ItemRule => 2
    case MetasRule => 2
    case TargetAtomsRule => 2
    case NameRule => 0
    case StringRule => 0
    case NumberRule => 0
    case OpRule => 0
    case ExpectRule(_) => 0
    case _ => 1
  }

  /** A call of `rule` at `i` lies strictly inside the call `k`. */
  predicate Inside(i: nat, rule: RuleId, k: Key) {
    k.index < i || (k.index == i && Rank(rule) < Rank(k.rule))
  }

  const ExpectedWords: set<string> := {
    "@", ":", "|", "$", "=", "&", "!", "~", "[", "]", "?", "*", "+", ".", "(", ")", "{", "}",
    "memo", "NewLine", "EndMarker", "Indent", "Dedent" }

  predicate Known(rule: RuleId) {
    rule.ExpectRule? ==> rule.expected in ExpectedWords
  }

  /** A marker: facts about single cache entries are used only where it is mentioned. */
  predicate Noted(k: Key) {
    true
  }

  /**
   Each body under way lies inside the one before it, the cache agrees with the
   descent, and every run so far was of a key of its own.
   */
  ghost predicate Consistent(ts: Tokens, level: int, cache: map<Key, Outcome>, running: seq<Key>, runs: nat) {
    && level == |running|
    && runs == |cache| + |running|
    && (forall i, j :: 0 <= i < j < |running| ==> Inside(running[j].index, running[j].rule, running[i]))
    && (forall k {:trigger Noted(k)} :: Noted(k) ==>
          && (k in cache || k in running ==> k.index <= |ts| && Known(k.rule))
          && (k in cache ==> k !in running && cache[k] == Run(ts, k.index, k.rule)))
  }

  class GrammarParser {
    const tokens: Tokens
    var index: nat
    var level: int
    var cache: map<Key, Outcome>
    ghost var running: seq<Key>
    ghost var runs: nat

    ghost predicate Valid()
      reads this
    {
      index <= |tokens| && Consistent(tokens, level, cache, running, runs)
    }

    /** What every call keeps. */
    twostate predicate Kept()
      reads this
    {
      Valid() && level == old(level) && running == old(running) && old(runs) <= runs
    }

    /** A call of `rule` at the current index lies inside the innermost body under way. */
    ghost predicate MayCall(rule: RuleId)
      reads this
    {
      running == [] || Inside(index, rule, running[|running| - 1])
    }

    /** The innermost body under way is that of `rule` at the current index. */
    ghost predicate Innermost(rule: RuleId)
      reads this
    {
      running != [] && running[|running| - 1] == Key(index, rule)
    }

    constructor (tokens: Tokens)
      ensures Valid() && this.tokens == tokens && index == 0 && cache == map[] && running == [] && runs == 0
    {
      this.tokens := tokens;
      index, level, cache := 0, 0, map[];
      running, runs := [], 0;
    }

    method Memoize(rule: RuleId) returns (result: Value)
      requires Valid() && MayCall(rule) && Known(rule)
      modifies this
      ensures Kept() && Outcome(result, index) == Run(tokens, old(index), rule)
      decreases |tokens| - index, Rank(rule), 8
    {
      var key := Key(index, rule);
      assert Noted(key);
      if key in cache {
        var Outcome(value, end) := cache[key];
        index := end;
        return value;
      }
      level := level + 1;
      running, runs := running + [key], runs + 1;
      result := Body(rule);
      level := level - 1;
      running := running[..|running| - 1];
      cache := cache[key := Outcome(result, index)];
    }

    method Body(rule: RuleId) returns (result: Value)
      requires Valid() && Innermost(rule)
      modifies this
      ensures Kept() && Outcome(result, index) == Run(tokens, old(index), rule)
      decreases |tokens| - index, Rank(rule), 6
    {
      hide Start, GrammarAt, MetaAt, RuleAt, RuleNameAt, MemoFlag, Action, Annotation, OfType, Expect, Consistent;
      match rule
      case StartRule =>
        var r := StartBody(Start(tokens, index));
        result := if r.Some? then GrammarV(r.value) else Null;
      case GrammarRule =>
        var r := GrammarBody(GrammarAt(tokens, index));
        result := if r.Some? then GrammarV(r.value) else Null;
      case MetasRule =>
        var r := MetasBody(Metas(tokens, index));
        result := if r.Some? then MetasV(r.value) else Null;
      case MetaRule =>
        var r := MetaBody(MetaAt(tokens, index));
        result := if r.Some? then MetaV(r.value) else Null;
      case RulesRule =>
        var r := RulesBody(Rules(tokens, index));
        result := if r.Some? then RulesV(r.value) else Null;
      case RuleRule =>
        var r := RuleBody(RuleAt(tokens, index));
        result := if r.Some? then RuleV(r.value) else Null;
      case RuleNameRule =>
        var r := RuleNameBody(RuleNameAt(tokens, index));
        result := if r.Some? then RuleNameV(r.value) else Null;
      case MemoFlagRule =>
        var r := MemoFlagBody(MemoFlag(tokens, index));
        result := if r.Some? then TextV(r.value) else Null;
      case AltsRule =>
        var r := AltsBody(Alts(tokens, index));
        result := if r.Some? then RhsV(r.value) else Null;
      case MoreAltsRule =>
        var r := MoreAltsBody(MoreAlts(tokens, index));
        result := if r.Some? then RhsV(r.value) else Null;
      case AltRule =>
        var r := AltBody(AltAt(tokens, index));
        result := if r.Some? then AltV(r.value) else Null;
      case _ => result := ItemLevelBody(rule);
    }

    method ItemLevelBody(rule: RuleId) returns (result: Value)
      requires Valid() && Innermost(rule)
      requires Rank(rule) <= 4 && !rule.MetasRule? && !rule.MetaRule? && !rule.RuleNameRule? && !rule.MemoFlagRule?
      requires !rule.MoreAltsRule?
      modifies this
      ensures Kept() && Outcome(result, index) == Run(tokens, old(index), rule)
      decreases |tokens| - index, Rank(rule), 5
    {
      hide Start, GrammarAt, MetaAt, RuleAt, RuleNameAt, MemoFlag, Action, Annotation, OfType, Expect, Consistent;
      match rule
      case ItemsRule =>
        var r := ItemsBody(Items(tokens, index));
        result := if r.Some? then ItemsV(r.value) else Null;
      case NamedItemRule =>
        var r := NamedItemBody(NamedItemAt(tokens, index));
        result := if r.Some? then NamedItemV(r.value) else Null;
      case ForcedAtomRule =>
        var r := ForcedAtomBody(ForcedAtom(tokens, index));
        result := if r.Some? then ItemV(r.value) else Null;
      case LookaheadRule =>
        var r := LookaheadBody(LookaheadAt(tokens, index));
        result := if r.Some? then ItemV(r.value) else Null;
      case ItemRule =>
        var r := ItemBody(ItemAt(tokens, index));
        result := if r.Some? then ItemV(r.value) else Null;
      case AtomRule =>
        var r := AtomBody(AtomAt(tokens, index));
        result := if r.Some? then ItemV(r.value) else Null;
      case ActionRule =>
        var r := ActionBody(Action(tokens, index));
        result := if r.Some? then TextV(r.value) else Null;
      case AnnotationRule =>
        var r := AnnotationBody(Annotation(tokens, index));
        result := if r.Some? then TextV(r.value) else Null;
      case TargetAtomsRule =>
        var r := TargetAtomsBody(TargetAtoms(tokens, index));
        result := if r.Some? then TextV(r.value) else Null;
      case TargetAtomRule =>
        var r := TargetAtomBody(TargetAtom(tokens, index));
        result := if r.Some? then TextV(r.value) else Null;
      case NameRule | StringRule | NumberRule | OpRule | ExpectRule(_) => result := TokenLevelBody(rule);
    }

    method TokenLevelBody(rule: RuleId) returns (result: Value)
      requires Valid() && Innermost(rule) && Rank(rule) == 0
      modifies this
      ensures Kept() && Outcome(result, index) == Run(tokens, old(index), rule)
    {
      hide OfType, Expect, Consistent;
      match rule
      case NameRule =>
        var r := TokenBody(Name);
        result := if r.Some? then TokenV(r.value) else Null;
      case StringRule =>
        var r := TokenBody(String);
        result := if r.Some? then TokenV(r.value) else Null;
      case NumberRule =>
        var r := TokenBody(Number);
        result := if r.Some? then TokenV(r.value) else Null;
      case OpRule =>
        var r := TokenBody(Op);
        result := if r.Some? then TokenV(r.value) else Null;
      case ExpectRule(expected) =>
        var r := ExpectBody(expected);
        result := if r.Some? then TokenV(r.value) else Null;
    }

    method ReadStart() returns (result: Option<Grammar>)
      requires Valid() && MayCall(StartRule)
      modifies this
      ensures Kept() && Gives(result, index, old(index), Start(tokens, old(index)))
      decreases |tokens| - index, Rank(StartRule), 10
    {
      hide Start, GrammarAt, MetaAt, RuleAt, RuleNameAt, MemoFlag, Action, Annotation, OfType, Expect, Consistent;
      var value := Memoize(StartRule);
      result := if value.Null? then None else Some(value.grammar);
    }

    method StartBody(ghost want: Parsed<Grammar>) returns (result: Option<Grammar>)
      requires Valid() && Innermost(StartRule)
      requires want == Start(tokens, index)
      modifies this
      ensures Kept() && Gives(result, index, old(index), want)
      decreases |tokens| - index, Rank(StartRule), 4
    {
      hide Consistent, Expect, GrammarAt;
      var start := index;
      {
        var grammar := ReadGrammar();
        if grammar.Some? {
          var end := ReadExpect("EndMarker");
          if end.Some? {
            return grammar;
          }
        }
      }
      index := start;
      return None;
    }

    method ReadGrammar() returns (result: Option<Grammar>)
      requires Valid() && MayCall(GrammarRule)
      modifies this
      ensures Kept() && Gives(result, index, old(index), GrammarAt(tokens, old(index)))
      decreases |tokens| - index, Rank(GrammarRule), 10
    {
      hide Start, GrammarAt, MetaAt, RuleAt, RuleNameAt, MemoFlag, Action, Annotation, OfType, Expect, Consistent;
      var value := Memoize(GrammarRule);
      result := if value.Null? then None else Some(value.grammar);
    }

    method GrammarBody(ghost want: Parsed<Grammar>) returns (result: Option<Grammar>)
      requires Valid() && Innermost(GrammarRule)
      requires want == GrammarAt(tokens, index)
      modifies this
      ensures Kept() && Gives(result, index, old(index), want)
      decreases |tokens| - index, Rank(GrammarRule), 4
    {
      hide Consistent, Metas, Rules;
      var start := index;
      {
        var metas := ReadMetas();
        if TrueList(metas) {
          var rules := ReadRules();
          if rules.Some? {
            return Some(MkGrammar(rules.value, metas.value));
          }
        }
      }
      index := start;
      {
        var rules := ReadRules();
        if rules.Some? {
          return Some(MkGrammar(rules.value, []));
        }
      }
      index := start;
      return None;
    }

    method ReadMetas() returns (result: Option<seq<Meta>>)
      requires Valid() && MayCall(MetasRule)
      modifies this
      ensures Kept() && Gives(result, index, old(index), Metas(tokens, old(index)))
      decreases |tokens| - index, Rank(MetasRule), 10
    {
      var value := Memoize(MetasRule);
      result := if value.Null? then None else Some(value.metas);
    }

    method MetasBody(ghost want: Parsed<seq<Meta>>) returns (result: Option<seq<Meta>>)
      requires Valid() && Innermost(MetasRule)
      requires want == Metas(tokens, index)
      modifies this
      ensures Kept() && Gives(result, index, old(index), want)
      decreases |tokens| - index, Rank(MetasRule), 4
    {
      hide Consistent, MetaAt;
      var start := index;
      {
        var meta := ReadMeta();
        if meta.Some? {
          var metas := ReadMetas();
          if TrueList(metas) {
            return Some([meta.value] + metas.value);
          }
        }
      }
      index := start;
      {
        var meta := ReadMeta();
        if meta.Some? {
          return Some([meta.value]);
        }
      }
      index := start;
      return None;
    }

    method ReadMeta() returns (result: Option<Meta>)
      requires Valid() && MayCall(MetaRule)
      modifies this
      ensures Kept() && Gives(result, index, old(index), MetaAt(tokens, old(index)))
      decreases |tokens| - index, Rank(MetaRule), 10
    {
      var value := Memoize(MetaRule);
      result := if value.Null? then None else Some(value.meta);
    }

    method ReadBareMeta() returns (result: Option<Meta>)
      requires Valid() && Innermost(MetaRule)
      modifies this
      ensures Kept() && Tries(result, index, BareMeta(tokens, old(index)))
      decreases |tokens| - index, Rank(MetaRule), 2
    {
      hide Consistent, Expect, OfType;
      var at := ReadExpect("@");
      if at.Some? {
        var name := ReadName();
        if name.Some? {
          var line := ReadExpect("NewLine");
          if line.Some? {
            return Some(Meta(name.value.value, NoValue));
          }
        }
      }
      return None;
    }

    // "@" Name Name NewLine
    method ReadNamedMeta() returns (result: Option<Meta>)
      requires Valid() && Innermost(MetaRule)
      modifies this
      ensures Kept() && Tries(result, index, ValuedMeta(tokens, old(index), Name))
      decreases |tokens| - index, Rank(MetaRule), 2
    {
      hide Consistent, Expect, OfType;
      var at := ReadExpect("@");
      if at.Some? {
        var a := ReadName();
        if a.Some? {
          var b := ReadName();
          if b.Some? {
            var line := ReadExpect("NewLine");
            if line.Some? {
              return Some(Meta(a.value.value, NameValue(b.value.value)));
            }
          }
        }
      }
      return None;
    }

    // "@" Name String NewLine
    method ReadQuotedMeta() returns (result: Option<Meta>)
      requires Valid() && Innermost(MetaRule)
      modifies this
      ensures Kept() && Tries(result, index, ValuedMeta(tokens, old(index), String))
      decreases |tokens| - index, Rank(MetaRule), 2
    {
      hide Consistent, Expect, OfType;
      var at := ReadExpect("@");
      if at.Some? {
        var name := ReadName();
        if name.Some? {
          var str := ReadString();
          if str.Some? {
            var line := ReadExpect("NewLine");
            if line.Some? {
              return Some(Meta(name.value.value, LiteralValue(str.value.value)));
            }
          }
        }
      }
      return None;
    }

    method MetaBody(ghost want: Parsed<Meta>) returns (result: Option<Meta>)
      requires Valid() && Innermost(MetaRule)
      requires want == MetaAt(tokens, index)
      modifies this
      ensures Kept() && Gives(result, index, old(index), want)
      decreases |tokens| - index, Rank(MetaRule), 4
    {
      hide BareMeta, ValuedMeta, Consistent;
      var start := index;
      var meta := ReadBareMeta();
      if meta.Some? {
        return meta;
      }
      index := start;
      meta := ReadNamedMeta();
      if meta.Some? {
        return meta;
      }
      index := start;
      meta := ReadQuotedMeta();
      if meta.Some? {
        return meta;
      }
      index := start;
      return None;
    }

    method ReadRules() returns (result: Option<seq<Rule>>)
      requires Valid() && MayCall(RulesRule)
      modifies this
      ensures Kept() && Gives(result, index, old(index), Rules(tokens, old(index)))
      decreases |tokens| - index, Rank(RulesRule), 10
    {
      hide Start, GrammarAt, MetaAt, RuleAt, RuleNameAt, MemoFlag, Action, Annotation, OfType, Expect, Consistent;
      var value := Memoize(RulesRule);
      result := if value.Null? then None else Some(value.rules);
    }

    method RulesBody(ghost want: Parsed<seq<Rule>>) returns (result: Option<seq<Rule>>)
      requires Valid() && Innermost(RulesRule)
      requires want == Rules(tokens, index)
      modifies this
      ensures Kept() && Gives(result, index, old(index), want)
      decreases |tokens| - index, Rank(RulesRule), 4
    {
      hide Consistent, RuleAt;
      var start := index;
      {
        var rule := ReadRule();
        if rule.Some? {
          var rules := ReadRules();
          if rules.Some? {
            return Some([rule.value] + rules.value);
          }
        }
      }
      index := start;
      {
        var rule := ReadRule();
        if rule.Some? {
          return Some([rule.value]);
        }
      }
      index := start;
      return None;
    }

    method ReadRule() returns (result: Option<Rule>)
      requires Valid() && MayCall(RuleRule)
      modifies this
      ensures Kept() && Gives(result, index, old(index), RuleAt(tokens, old(index)))
      decreases |tokens| - index, Rank(RuleRule), 10
    {
      hide Start, GrammarAt, MetaAt, RuleAt, RuleNameAt, MemoFlag, Action, Annotation, OfType, Expect, Consistent;
      var value := Memoize(RuleRule);
      result := if value.Null? then None else Some(value.rule);
    }

    // rulename memoflag? ":", the common head of the three alternatives of `rule`
    method ReadHead() returns (result: Option<RuleName>)
      requires Valid() && Innermost(RuleRule)
      modifies this
      ensures Kept() && Tries(result, index, RuleHead(tokens, old(index)))
      decreases |tokens| - index, Rank(RuleRule), 0
    {
      hide Consistent, Expect, MemoFlag, RuleNameAt;
      var name := ReadRuleName();
      if name.Some? {
        var memo := ReadMemoFlag();
        var colon := ReadExpect(":");
        if colon.Some? {
          return name;
        }
      }
      return None;
    }

    // INDENT more_alts DEDENT, the common tail of the first two alternatives of `rule`
    method ReadBlock() returns (result: Option<Rhs>)
      requires Valid() && running != [] && running[|running| - 1].index < index
      modifies this
      ensures Kept() && Tries(result, index, Block(tokens, old(index)))
      decreases |tokens| - index, Rank(RuleRule), 0
    {
      hide Consistent, Expect, MoreAlts;
      var indent := ReadExpect("Indent");
      if indent.Some? {
        var more := ReadMoreAlts();
        if more.Some? {
          var dedent := ReadExpect("Dedent");
          if dedent.Some? {
            return more;
          }
        }
      }
      return None;
    }

    // rulename memoflag? ":" alts NewLine INDENT more_alts DEDENT
    method ReadLongRule() returns (result: Option<Rule>)
      requires Valid() && Innermost(RuleRule)
      modifies this
      ensures Kept() && Tries(result, index, LongRule(tokens, old(index)))
      decreases |tokens| - index, Rank(RuleRule), 2
    {
      hide Alts, Block, Consistent, Expect, RuleHead;
      var name := ReadHead();
      if name.Some? {
        var alts := ReadAlts();
        if alts.Some? {
          var line := ReadExpect("NewLine");
          if line.Some? {
            var more := ReadBlock();
            if more.Some? {
              return Some(Rule(name.value.name, name.value.annotation, Rhs(alts.value.alts + more.value.alts)));
            }
          }
        }
      }
      return None;
    }

    // rulename memoflag? ":" NewLine INDENT more_alts DEDENT
    method ReadBlockRule() returns (result: Option<Rule>)
      requires Valid() && Innermost(RuleRule)
      modifies this
      ensures Kept() && Tries(result, index, BlockRule(tokens, old(index)))
      decreases |tokens| - index, Rank(RuleRule), 2
    {
      hide Block, Consistent, Expect, RuleHead;
      var name := ReadHead();
      if name.Some? {
        var line := ReadExpect("NewLine");
        if line.Some? {
          var more := ReadBlock();
          if more.Some? {
            return Some(Rule(name.value.name, name.value.annotation, more.value));
          }
        }
      }
      return None;
    }

    // rulename memoflag? ":" alts NewLine
    method ReadLineRule() returns (result: Option<Rule>)
      requires Valid() && Innermost(RuleRule)
      modifies this
      ensures Kept() && Tries(result, index, LineRule(tokens, old(index)))
      decreases |tokens| - index, Rank(RuleRule), 2
    {
      hide Alts, Consistent, Expect, RuleHead;
      var name := ReadHead();
      if name.Some? {
        var alts := ReadAlts();
        if alts.Some? {
          var line := ReadExpect("NewLine");
          if line.Some? {
            return Some(Rule(name.value.name, name.value.annotation, alts.value));
          }
        }
      }
      return None;
    }

    method RuleBody(ghost want: Parsed<Rule>) returns (result: Option<Rule>)
      requires Valid() && Innermost(RuleRule)
      requires want == RuleAt(tokens, index)
      modifies this
      ensures Kept() && Gives(result, index, old(index), want)
      decreases |tokens| - index, Rank(RuleRule), 4
    {
      hide BlockRule, Consistent, LineRule, LongRule;
      var start := index;
      {
        var rule := ReadLongRule();
        if rule.Some? {
          return rule;
        }
      }
      index := start;
      {
        var rule := ReadBlockRule();
        if rule.Some? {
          return rule;
        }
      }
      index := start;
      {
        var rule := ReadLineRule();
        if rule.Some? {
          return rule;
        }
      }
      index := start;
      return None;
    }

    method ReadRuleName() returns (result: Option<RuleName>)
      requires Valid() && MayCall(RuleNameRule)
      modifies this
      ensures Kept() && Gives(result, index, old(index), RuleNameAt(tokens, old(index)))
      decreases |tokens| - index, Rank(RuleNameRule), 10
    {
      var value := Memoize(RuleNameRule);
      result := if value.Null? then None else Some(value.ruleName);
    }

    method RuleNameBody(ghost want: Parsed<RuleName>) returns (result: Option<RuleName>)
      requires Valid() && Innermost(RuleNameRule)
      requires want == RuleNameAt(tokens, index)
      modifies this
      ensures Kept() && Gives(result, index, old(index), want)
      decreases |tokens| - index, Rank(RuleNameRule), 4
    {
      hide Annotation, Consistent, OfType;
      var start := index;
      {
        var name := ReadName();
        if name.Some? {
          var annotation := ReadAnnotation();
          if TrueText(annotation) {
            return Some(RuleName(name.value.value, annotation));
          }
        }
      }
      index := start;
      {
        var name := ReadName();
        if name.Some? {
          return Some(RuleName(name.value.value, None));
        }
      }
      index := start;
      return None;
    }

    method ReadMemoFlag() returns (result: Option<string>)
      requires Valid() && MayCall(MemoFlagRule)
      modifies this
      ensures Kept() && Gives(result, index, old(index), MemoFlag(tokens, old(index)))
      decreases |tokens| - index, Rank(MemoFlagRule), 10
    {
      var value := Memoize(MemoFlagRule);
      result := if value.Null? then None else Some(value.text);
    }

    method MemoFlagBody(ghost want: Parsed<string>) returns (result: Option<string>)
      requires Valid() && Innermost(MemoFlagRule)
      requires want == MemoFlag(tokens, index)
      modifies this
      ensures Kept() && Gives(result, index, old(index), want)
      decreases |tokens| - index, Rank(MemoFlagRule), 4
    {
      hide Consistent, Expect;
      var start := index;
      {
        var open := ReadExpect("(");
        if open.Some? {
          var memo := ReadExpect("memo");
          if memo.Some? {
            var close := ReadExpect(")");
            if close.Some? {
              return Some("memo");
            }
          }
        }
      }
      index := start;
      return None;
    }

    method ReadAlts() returns (result: Option<Rhs>)
      requires Valid() && MayCall(AltsRule)
      modifies this
      ensures Kept() && Gives(result, index, old(index), Alts(tokens, old(index)))
      decreases |tokens| - index, Rank(AltsRule), 10
    {
      var value := Memoize(AltsRule);
      result := if value.Null? then None else Some(value.rhs);
    }

    method AltsBody(ghost want: Parsed<Rhs>) returns (result: Option<Rhs>)
      requires Valid() && Innermost(AltsRule)
      requires want == Alts(tokens, index)
      modifies this
      ensures Kept() && Gives(result, index, old(index), want)
      decreases |tokens| - index, Rank(AltsRule), 4
    {
      hide AltAt, Consistent, Expect;
      var start := index;
      {
        var alt := ReadAlt();
        if alt.Some? {
          var bar := ReadExpect("|");
          if bar.Some? {
            var alts := ReadAlts();
            if alts.Some? {
              return Some(Rhs([alt.value] + alts.value.alts));
            }
          }
        }
      }
      index := start;
      {
        var alt := ReadAlt();
        if alt.Some? {
          return Some(Rhs([alt.value]));
        }
      }
      index := start;
      return None;
    }

    method ReadMoreAlts() returns (result: Option<Rhs>)
      requires Valid() && MayCall(MoreAltsRule)
      modifies this
      ensures Kept() && Gives(result, index, old(index), MoreAlts(tokens, old(index)))
      decreases |tokens| - index, Rank(MoreAltsRule), 10
    {
      var value := Memoize(MoreAltsRule);
      result := if value.Null? then None else Some(value.rhs);
    }

    method ReadAltsLine() returns (result: Option<Rhs>)
      requires Valid() && Innermost(MoreAltsRule)
      modifies this
      ensures Kept() && Tries(result, index, AltsLine(tokens, old(index)))
      decreases |tokens| - index, Rank(MoreAltsRule), 2
    {
      hide Alts, Consistent, Expect;
      var bar := ReadExpect("|");
      if bar.Some? {
        var alts := ReadAlts();
        if alts.Some? {
          var line := ReadExpect("NewLine");
          if line.Some? {
            return alts;
          }
        }
      }
      return None;
    }

    method MoreAltsBody(ghost want: Parsed<Rhs>) returns (result: Option<Rhs>)
      requires Valid() && Innermost(MoreAltsRule)
      requires want == MoreAlts(tokens, index)
      modifies this
      ensures Kept() && Gives(result, index, old(index), want)
      decreases |tokens| - index, Rank(MoreAltsRule), 4
    {
      hide AltsLine, Consistent;
      var start := index;
      {
        var alts := ReadAltsLine();
        if alts.Some? {
          var more := ReadMoreAlts();
          if more.Some? {
            return Some(Rhs(alts.value.alts + more.value.alts));
          }
        }
      }
      index := start;
      {
        var alts := ReadAltsLine();
        if alts.Some? {
          return Some(Rhs(alts.value.alts));
        }
      }
      index := start;
      return None;
    }

    method ReadAlt() returns (result: Option<Alt>)
      requires Valid() && MayCall(AltRule)
      modifies this
      ensures Kept() && Gives(result, index, old(index), AltAt(tokens, old(index)))
      decreases |tokens| - index, Rank(AltRule), 10
    {
      var value := Memoize(AltRule);
      result := if value.Null? then None else Some(value.alt);
    }

    // items '$'
    method ReadEndedItems() returns (result: Option<seq<NamedItem>>)
      requires Valid() && Innermost(AltRule)
      modifies this
      ensures Kept()
      ensures var items := Items(tokens, old(index));
              var end := if items.Ok? then Expect(tokens, items.end, "$") else Fail;
              if end.Ok? then result == Some(items.value) && index == end.end else result.None?
      decreases |tokens| - index, Rank(AltRule), 2
    {
      hide Consistent, Expect, Items;
      var items := ReadItems();
      if TrueList(items) {
        var end := ReadExpect("$");
        if end.Some? {
          return items;
        }
      }
      return None;
    }

    method AltBody(ghost want: Parsed<Alt>) returns (result: Option<Alt>)
      requires Valid() && Innermost(AltRule)
      requires want == AltAt(tokens, index)
      modifies this
      ensures Kept() && Gives(result, index, old(index), want)
      decreases |tokens| - index, Rank(AltRule), 4
    {
      hide Action, Consistent, Expect, Items;
      var start := index;
      {
        var items := ReadEndedItems();
        if items.Some? {
          var action := ReadAction();
          if TrueText(action) {
            return Some(Alt(items.value + [EndItem], action));
          }
        }
      }
      index := start;
      {
        var items := ReadEndedItems();
        if items.Some? {
          return Some(Alt(items.value + [EndItem], None));
        }
      }
      index := start;
      {
        var items := ReadItems();
        if TrueList(items) {
          var action := ReadAction();
          if TrueText(action) {
            return Some(Alt(items.value, action));
          }
        }
      }
      index := start;
      {
        var items := ReadItems();
        if TrueList(items) {
          return Some(Alt(items.value, None));
        }
      }
      index := start;
      return None;
    }

    method ReadItems() returns (result: Option<seq<NamedItem>>)
      requires Valid() && MayCall(ItemsRule)
      modifies this
      ensures Kept() && Gives(result, index, old(index), Items(tokens, old(index)))
      decreases |tokens| - index, Rank(ItemsRule), 10
    {
      var value := Memoize(ItemsRule);
      result := if value.Null? then None else Some(value.items);
    }

    method ItemsBody(ghost want: Parsed<seq<NamedItem>>) returns (result: Option<seq<NamedItem>>)
      requires Valid() && Innermost(ItemsRule)
      requires want == Items(tokens, index)
      modifies this
      ensures Kept() && Gives(result, index, old(index), want)
      decreases |tokens| - index, Rank(ItemsRule), 4
    {
      hide Consistent, NamedItemAt;
      var start := index;
      {
        var item := ReadNamedItem();
        if item.Some? {
          var items := ReadItems();
          if TrueList(items) {
            return Some([item.value] + items.value);
          }
        }
      }
      index := start;
      {
        var item := ReadNamedItem();
        if item.Some? {
          return Some([item.value]);
        }
      }
      index := start;
      return None;
    }

    method ReadNamedItem() returns (result: Option<NamedItem>)
      requires Valid() && MayCall(NamedItemRule)
      modifies this
      ensures Kept() && Gives(result, index, old(index), NamedItemAt(tokens, old(index)))
      decreases |tokens| - index, Rank(NamedItemRule), 10
    {
      var value := Memoize(NamedItemRule);
      result := if value.Null? then None else Some(value.namedItem);
    }

    method ReadTypedBinding() returns (result: Option<RuleName>)
      requires Valid() && Innermost(NamedItemRule)
      modifies this
      ensures Kept() && Tries(result, index, TypedBinding(tokens, old(index)))
      decreases |tokens| - index, Rank(NamedItemRule), 2
    {
      hide Annotation, Consistent, Expect, OfType;
      var name := ReadName();
      if name.Some? {
        var annotation := ReadAnnotation();
        if TrueText(annotation) {
          var equal := ReadExpect("=");
          if equal.Some? {
            return Some(RuleName(name.value.value, annotation));
          }
        }
      }
      return None;
    }

    method ReadPlainBinding() returns (result: Option<string>)
      requires Valid() && Innermost(NamedItemRule)
      modifies this
      ensures Kept() && Tries(result, index, PlainBinding(tokens, old(index)))
      decreases |tokens| - index, Rank(NamedItemRule), 2
    {
      hide Consistent, Expect, OfType;
      var name := ReadName();
      if name.Some? {
        var equal := ReadExpect("=");
        if equal.Some? {
          return Some(name.value.value);
        }
      }
      return None;
    }

    // Name annotation '=' ~ item
    method ReadTypedItem() returns (result: Option<NamedItem>, cut: bool)
      requires Valid() && Innermost(NamedItemRule)
      modifies this
      ensures Kept() && cut == TypedBinding(tokens, old(index)).Ok?
      ensures if cut then Tries(result, index, NamedItemAt(tokens, old(index))) else result.None?
      decreases |tokens| - index, Rank(NamedItemRule), 3
    {
      hide Consistent, ForcedAtom, ItemAt, LookaheadAt, PlainBinding, TypedBinding;
      var typed := ReadTypedBinding();
      if typed.Some? {
        var item := ReadItem();
        if item.Some? {
          return Some(NamedItem(Some(typed.value.name), item.value, typed.value.annotation)), true;
        }
        return None, true;
      }
      return None, false;
    }

    // Name '=' ~ item
    method ReadPlainlyNamedItem() returns (result: Option<NamedItem>, cut: bool)
      requires Valid() && Innermost(NamedItemRule) && TypedBinding(tokens, index).Fail?
      modifies this
      ensures Kept() && cut == PlainBinding(tokens, old(index)).Ok?
      ensures if cut then Tries(result, index, NamedItemAt(tokens, old(index))) else result.None?
      decreases |tokens| - index, Rank(NamedItemRule), 3
    {
      hide Consistent, ForcedAtom, ItemAt, LookaheadAt, PlainBinding, TypedBinding;
      var name := ReadPlainBinding();
      if name.Some? {
        var item := ReadItem();
        if item.Some? {
          return Some(NamedItem(name, item.value, None)), true;
        }
        return None, true;
      }
      return None, false;
    }

    method NamedItemBody(ghost want: Parsed<NamedItem>) returns (result: Option<NamedItem>)
      requires Valid() && Innermost(NamedItemRule)
      requires want == NamedItemAt(tokens, index)
      modifies this
      ensures Kept() && Gives(result, index, old(index), want)
      decreases |tokens| - index, Rank(NamedItemRule), 4
    {
      hide Consistent, ForcedAtom, ItemAt, LookaheadAt, PlainBinding, TypedBinding;
      var start := index;
      var named, cut := ReadTypedItem();
      if named.Some? {
        return named;
      }
      index := start;
      if cut {
        return None;
      }
      named, cut := ReadPlainlyNamedItem();
      if named.Some? {
        return named;
      }
      index := start;
      if cut {
        return None;
      }
      {
        var item := ReadItem();
        if item.Some? {
          return Some(NamedItem(None, item.value, None));
        }
      }
      index := start;
      {
        var item := ReadForcedAtom();
        if item.Some? {
          return Some(NamedItem(None, item.value, None));
        }
      }
      index := start;
      {
        var item := ReadLookahead();
        if item.Some? {
          return Some(NamedItem(None, item.value, None));
        }
      }
      index := start;
      return None;
    }

    method ReadForcedAtom() returns (result: Option<Item>)
      requires Valid() && MayCall(ForcedAtomRule)
      modifies this
      ensures Kept() && Gives(result, index, old(index), ForcedAtom(tokens, old(index)))
      decreases |tokens| - index, Rank(ForcedAtomRule), 10
    {
      var value := Memoize(ForcedAtomRule);
      result := if value.Null? then None else Some(value.item);
    }

    method ForcedAtomBody(ghost want: Parsed<Item>) returns (result: Option<Item>)
      requires Valid() && Innermost(ForcedAtomRule)
      requires want == ForcedAtom(tokens, index)
      modifies this
      ensures Kept() && Gives(result, index, old(index), want)
      decreases |tokens| - index, Rank(ForcedAtomRule), 4
    {
      hide AtomAt, Consistent, Expect;
      var start := index;
      {
        var ampersand := ReadExpect("&");
        if ampersand.Some? {
          var ampersand2 := ReadExpect("&");
          if ampersand2.Some? {
            var atom := ReadAtom();
            if atom.Some? {
              return Some(Forced(atom.value));
            }
          }
        }
      }
      index := start;
      return None;
    }

    method ReadLookahead() returns (result: Option<Item>)
      requires Valid() && MayCall(LookaheadRule)
      modifies this
      ensures Kept() && Gives(result, index, old(index), LookaheadAt(tokens, old(index)))
      decreases |tokens| - index, Rank(LookaheadRule), 10
    {
      var value := Memoize(LookaheadRule);
      result := if value.Null? then None else Some(value.item);
    }

    method LookaheadBody(ghost want: Parsed<Item>) returns (result: Option<Item>)
      requires Valid() && Innermost(LookaheadRule)
      requires want == LookaheadAt(tokens, index)
      modifies this
      ensures Kept() && Gives(result, index, old(index), want)
      decreases |tokens| - index, Rank(LookaheadRule), 4
    {
      hide AtomAt, Consistent, Expect;
      var start := index;
      var cut := false;
      {
        var ampersand := ReadExpect("&");
        if ampersand.Some? {
          cut := true;
          var atom := ReadAtom();
          if atom.Some? {
            return Some(PositiveLookahead(atom.value));
          }
        }
      }
      index := start;
      if cut {
        return None;
      }
      {
        var bang := ReadExpect("!");
        if bang.Some? {
          cut := true;
          var atom := ReadAtom();
          if atom.Some? {
            return Some(NegativeLookahead(atom.value));
          }
        }
      }
      index := start;
      if cut {
        return None;
      }
      {
        var tilde := ReadExpect("~");
        if tilde.Some? {
          return Some(Cut);
        }
      }
      index := start;
      return None;
    }

    method ReadItem() returns (result: Option<Item>)
      requires Valid() && MayCall(ItemRule)
      modifies this
      ensures Kept() && Gives(result, index, old(index), ItemAt(tokens, old(index)))
      decreases |tokens| - index, Rank(ItemRule), 10
    {
      var value := Memoize(ItemRule);
      result := if value.Null? then None else Some(value.item);
    }

    method ReadMarked(mark: string) returns (result: Option<Item>)
      requires Valid() && Innermost(ItemRule)
      requires mark in {"?", "*", "+"}
      modifies this
      ensures Kept() && Tries(result, index, Marked(tokens, old(index), mark))
      decreases |tokens| - index, Rank(ItemRule), 2
    {
      hide AtomAt, Consistent, Expect;
      var atom := ReadAtom();
      if atom.Some? {
        var end := ReadExpect(mark);
        if end.Some? {
          return atom;
        }
      }
      return None;
    }

    method ReadGather() returns (result: Option<Item>)
      requires Valid() && Innermost(ItemRule)
      modifies this
      ensures Kept() && Tries(result, index, GatherAt(tokens, old(index)))
      decreases |tokens| - index, Rank(ItemRule), 2
    {
      hide AtomAt, Consistent, Expect;
      var separator := ReadAtom();
      if separator.Some? {
        var dot := ReadExpect(".");
        if dot.Some? {
          var node := ReadAtom();
          if node.Some? {
            var plus := ReadExpect("+");
            if plus.Some? {
              return Some(Gather(separator.value, node.value));
            }
          }
        }
      }
      return None;
    }

    method ItemBody(ghost want: Parsed<Item>) returns (result: Option<Item>)
      requires Valid() && Innermost(ItemRule)
      requires want == ItemAt(tokens, index)
      modifies this
      ensures Kept() && Gives(result, index, old(index), want)
      decreases |tokens| - index, Rank(ItemRule), 4
    {
      hide Alts, AtomAt, Consistent, Expect, GatherAt, Marked;
      var start := index;
      var cut := false;
      {
        var open := ReadExpect("[");
        if open.Some? {
          cut := true;
          var alts := ReadAlts();
          if alts.Some? {
            var close := ReadExpect("]");
            if close.Some? {
              return Some(Opt(RhsItem(alts.value)));
            }
          }
        }
      }
      index := start;
      if cut {
        return None;
      }
      {
        var atom := ReadMarked("?");
        if atom.Some? {
          return Some(Opt(atom.value));
        }
      }
      index := start;
      {
        var atom := ReadMarked("*");
        if atom.Some? {
          return Some(Repeat0(atom.value));
        }
      }
      index := start;
      {
        var atom := ReadMarked("+");
        if atom.Some? {
          return Some(Repeat1(atom.value));
        }
      }
      index := start;
      {
        var gather := ReadGather();
        if gather.Some? {
          return gather;
        }
      }
      index := start;
      {
        var atom := ReadAtom();
        if atom.Some? {
          return atom;
        }
      }
      index := start;
      return None;
    }

    method ReadAtom() returns (result: Option<Item>)
      requires Valid() && MayCall(AtomRule)
      modifies this
      ensures Kept() && Gives(result, index, old(index), AtomAt(tokens, old(index)))
      decreases |tokens| - index, Rank(AtomRule), 10
    {
      var value := Memoize(AtomRule);
      result := if value.Null? then None else Some(value.item);
    }

    // '(' ~ alts ')'
    method ReadGroup() returns (result: Option<Item>, cut: bool)
      requires Valid() && Innermost(AtomRule)
      modifies this
      ensures Kept() && cut == Expect(tokens, old(index), "(").Ok?
      ensures if cut then Tries(result, index, AtomAt(tokens, old(index))) else result.None?
      decreases |tokens| - index, Rank(AtomRule), 2
    {
      hide Alts, Consistent, Expect, OfType;
      var open := ReadExpect("(");
      if open.Some? {
        var alts := ReadAlts();
        if alts.Some? {
          var close := ReadExpect(")");
          if close.Some? {
            return Some(Group(alts.value)), true;
          }
        }
        return None, true;
      }
      return None, false;
    }

    method AtomBody(ghost want: Parsed<Item>) returns (result: Option<Item>)
      requires Valid() && Innermost(AtomRule)
      requires want == AtomAt(tokens, index)
      modifies this
      ensures Kept() && Gives(result, index, old(index), want)
      decreases |tokens| - index, Rank(AtomRule), 4
    {
      hide Alts, Consistent, Expect, OfType;
      var start := index;
      var group, cut := ReadGroup();
      if group.Some? {
        return group;
      }
      index := start;
      if cut {
        return None;
      }
      {
        var name := ReadName();
        if name.Some? {
          return Some(NameLeaf(name.value.value));
        }
      }
      index := start;
      {
        var str := ReadString();
        if str.Some? {
          return Some(StringLeaf(str.value.value));
        }
      }
      index := start;
      return None;
    }

    method ReadAction() returns (result: Option<string>)
      requires Valid() && MayCall(ActionRule)
      modifies this
      ensures Kept() && Gives(result, index, old(index), Action(tokens, old(index)))
      decreases |tokens| - index, Rank(ActionRule), 10
    {
      var value := Memoize(ActionRule);
      result := if value.Null? then None else Some(value.text);
    }

    method ActionBody(ghost want: Parsed<string>) returns (result: Option<string>)
      requires Valid() && Innermost(ActionRule)
      requires want == Action(tokens, index)
      modifies this
      ensures Kept() && Gives(result, index, old(index), want)
      decreases |tokens| - index, Rank(ActionRule), 4
    {
      hide Consistent, Expect, TargetAtoms;
      var start := index;
      {
        var open := ReadExpect("{");
        if open.Some? {
          var atoms := ReadTargetAtoms();
          if TrueText(atoms) {
            var close := ReadExpect("}");
            if close.Some? {
              return atoms;
            }
          }
        }
      }
      index := start;
      return None;
    }

    method ReadAnnotation() returns (result: Option<string>)
      requires Valid() && MayCall(AnnotationRule)
      modifies this
      ensures Kept() && Gives(result, index, old(index), Annotation(tokens, old(index)))
      decreases |tokens| - index, Rank(AnnotationRule), 10
    {
      var value := Memoize(AnnotationRule);
      result := if value.Null? then None else Some(value.text);
    }

    method AnnotationBody(ghost want: Parsed<string>) returns (result: Option<string>)
      requires Valid() && Innermost(AnnotationRule)
      requires want == Annotation(tokens, index)
      modifies this
      ensures Kept() && Gives(result, index, old(index), want)
      decreases |tokens| - index, Rank(AnnotationRule), 4
    {
      hide Consistent, Expect, TargetAtoms;
      var start := index;
      {
        var open := ReadExpect("[");
        if open.Some? {
          var atoms := ReadTargetAtoms();
          if TrueText(atoms) {
            var close := ReadExpect("]");
            if close.Some? {
              return atoms;
            }
          }
        }
      }
      index := start;
      return None;
    }

    method ReadTargetAtoms() returns (result: Option<string>)
      requires Valid() && MayCall(TargetAtomsRule)
      modifies this
      ensures Kept() && Gives(result, index, old(index), TargetAtoms(tokens, old(index)))
      decreases |tokens| - index, Rank(TargetAtomsRule), 10
    {
      var value := Memoize(TargetAtomsRule);
      result := if value.Null? then None else Some(value.text);
    }

    method TargetAtomsBody(ghost want: Parsed<string>) returns (result: Option<string>)
      requires Valid() && Innermost(TargetAtomsRule)
      requires want == TargetAtoms(tokens, index)
      modifies this
      ensures Kept() && Gives(result, index, old(index), want)
      decreases |tokens| - index, Rank(TargetAtomsRule), 4
    {
      hide Consistent, TargetAtom;
      var start := index;
      {
        var atom := ReadTargetAtom();
        if TrueText(atom) {
          var atoms := ReadTargetAtoms();
          if TrueText(atoms) {
            return Some(atom.value + " " + atoms.value);
          }
        }
      }
      index := start;
      {
        var atom := ReadTargetAtom();
        if TrueText(atom) {
          return atom;
        }
      }
      index := start;
      return None;
    }

    method ReadTargetAtom() returns (result: Option<string>)
      requires Valid() && MayCall(TargetAtomRule)
      modifies this
      ensures Kept() && Gives(result, index, old(index), TargetAtom(tokens, old(index)))
      decreases |tokens| - index, Rank(TargetAtomRule), 10
    {
      var value := Memoize(TargetAtomRule);
      result := if value.Null? then None else Some(value.text);
    }

    method ReadStarName() returns (result: Option<string>)
      requires Valid() && Innermost(TargetAtomRule)
      modifies this
      ensures Kept() && Tries(result, index, StarName(tokens, old(index)))
      decreases |tokens| - index, Rank(TargetAtomRule), 2
    {
      hide Consistent, Expect, OfType;
      var name := ReadName();
      if name.Some? {
        var star := ReadExpect("*");
        if star.Some? {
          return Some(name.value.value + "*");
        }
      }
      return None;
    }

    method ReadPlainOp() returns (result: Option<string>)
      requires Valid() && Innermost(TargetAtomRule)
      modifies this
      ensures Kept() && Tries(result, index, PlainOp(tokens, old(index)))
      decreases |tokens| - index, Rank(TargetAtomRule), 2
    {
      hide Consistent, Expect, OfType;
      var noBrace := NotAhead("}");
      if noBrace {
        var noBracket := NotAhead("]");
        if noBracket {
          var op := ReadOp();
          if op.Some? {
            return Some(op.value.value);
          }
        }
      }
      return None;
    }

    method ReadLiteralAtom() returns (result: Option<string>)
      requires Valid() && Innermost(TargetAtomRule)
      modifies this
      ensures Kept() && Gives(result, index, old(index), LiteralAtom(tokens, old(index)))
      decreases |tokens| - index, Rank(TargetAtomRule), 2
    {
      hide Consistent, Expect, OfType;
      var start := index;
      {
        var number := ReadNumber();
        if number.Some? {
          return Some(number.value.value);
        }
      }
      index := start;
      {
        var str := ReadString();
        if str.Some? {
          return Some(str.value.value);
        }
      }
      index := start;
      return None;
    }

    method ReadPlainAtom() returns (result: Option<string>)
      requires Valid() && Innermost(TargetAtomRule)
      modifies this
      ensures Kept() && Gives(result, index, old(index), PlainAtom(tokens, old(index)))
      decreases |tokens| - index, Rank(TargetAtomRule), 3
    {
      hide Consistent, Expect, OfType, PlainOp, LiteralAtom;
      var start := index;
      {
        var literal := ReadLiteralAtom();
        if literal.Some? {
          return literal;
        }
      }
      index := start;
      {
        var mark := ReadExpect("?");
        if mark.Some? {
          return Some("?");
        }
      }
      index := start;
      {
        var colon := ReadExpect(":");
        if colon.Some? {
          return Some(":");
        }
      }
      index := start;
      {
        var op := ReadPlainOp();
        if op.Some? {
          return op;
        }
      }
      index := start;
      return None;
    }

    // "[" ~ target_atoms? "]"
    method ReadBrackets() returns (result: Option<string>, cut: bool)
      requires Valid() && Innermost(TargetAtomRule)
      requires tokens[index..] == [] || tokens[index].kind != GrammarAction
      modifies this
      ensures Kept() && cut == Expect(tokens, old(index), "[").Ok?
      ensures if cut then Tries(result, index, TargetAtom(tokens, old(index))) else result.None?
      decreases |tokens| - index, Rank(TargetAtomRule), 2
    {
      hide Consistent, Expect, OfType, PlainAtom, StarName, TargetAtoms;
      var open := ReadExpect("[");
      if open.Some? {
        var atoms := ReadTargetAtoms();
        var close := ReadExpect("]");
        return if close.Some? then Some("[]") else None, true;
      }
      return None, false;
    }

    method TargetAtomBody(ghost want: Parsed<string>) returns (result: Option<string>)
      requires Valid() && Innermost(TargetAtomRule)
      requires want == TargetAtom(tokens, index)
      modifies this
      ensures Kept() && Gives(result, index, old(index), want)
      decreases |tokens| - index, Rank(TargetAtomRule), 4
    {
      hide Consistent, Expect, OfType, PlainAtom, StarName, TargetAtoms;
      var next := PeekToken();
      if next.Some? && next.value.kind == GrammarAction {
        index := index + 1;
        return Some(Trim(next.value.value));
      }
      var start := index;
      var brackets, cut := ReadBrackets();
      if brackets.Some? {
        return brackets;
      }
      index := start;
      if cut {
        return None;
      }
      {
        var star := ReadStarName();
        if star.Some? {
          return star;
        }
      }
      index := start;
      {
        var name := ReadName();
        if name.Some? {
          return Some(name.value.value);
        }
      }
      index := start;
      {
        var atom := ReadPlainAtom();
        if atom.Some? {
          return atom;
        }
      }
      index := start;
      return None;
    }

    // negativeLookahead($this->expect(...), $expected) inside target_atom
    method NotAhead(expected: string) returns (absent: bool)
      requires Valid()
      requires running != [] && running[|running| - 1] == Key(index, TargetAtomRule) && expected in ExpectedWords
      modifies this
      ensures Valid()
      ensures level == old(level) && running == old(running) && old(runs) <= runs && index == old(index)
      ensures absent == Expect(tokens, index, expected).Fail?
      decreases |tokens| - index, Rank(TargetAtomRule), 0
    {
      hide Consistent, Expect;
      var start := index;
      var ok := ReadExpect(expected);
      index := start;
      return ok.None?;
    }

    function PeekToken(): Option<Token>
      reads this
    {
      if index < |tokens| then Some(tokens[index]) else None
    }

    method ReadName() returns (result: Option<Token>)
      requires Valid() && MayCall(NameRule)
      modifies this
      ensures Kept() && Gives(result, index, old(index), OfType(tokens, old(index), Name))
      decreases |tokens| - index, Rank(NameRule), 10
    {
      var value := Memoize(NameRule);
      result := if value.Null? then None else Some(value.token);
    }

    method ReadString() returns (result: Option<Token>)
      requires Valid() && MayCall(StringRule)
      modifies this
      ensures Kept() && Gives(result, index, old(index), OfType(tokens, old(index), String))
      decreases |tokens| - index, Rank(StringRule), 10
    {
      var value := Memoize(StringRule);
      result := if value.Null? then None else Some(value.token);
    }

    method ReadNumber() returns (result: Option<Token>)
      requires Valid() && MayCall(NumberRule)
      modifies this
      ensures Kept() && Gives(result, index, old(index), OfType(tokens, old(index), Number))
      decreases |tokens| - index, Rank(NumberRule), 10
    {
      var value := Memoize(NumberRule);
      result := if value.Null? then None else Some(value.token);
    }

    method ReadOp() returns (result: Option<Token>)
      requires Valid() && MayCall(OpRule)
      modifies this
      ensures Kept() && Gives(result, index, old(index), OfType(tokens, old(index), Op))
      decreases |tokens| - index, Rank(OpRule), 10
    {
      var value := Memoize(OpRule);
      result := if value.Null? then None else Some(value.token);
    }

    method ReadExpect(expected: string) returns (result: Option<Token>)
      requires Valid() && MayCall(ExpectRule(expected)) && expected in ExpectedWords
      modifies this
      ensures Kept() && Gives(result, index, old(index), Expect(tokens, old(index), expected))
      decreases |tokens| - index, Rank(ExpectRule(expected)), 10
    {
      var value := Memoize(ExpectRule(expected));
      result := if value.Null? then None else Some(value.token);
    }

    // The closures of name, string, number and op.
    method TokenBody(kind: TokenType) returns (result: Option<Token>)
      requires Valid()
      modifies this
      ensures Kept() && Gives(result, index, old(index), OfType(tokens, old(index), kind))
    {
      var token := PeekToken();
      if token.Some? && token.value.kind == kind {
        index := index + 1;
        return token;
      }
      return None;
    }

    method ExpectBody(expected: string) returns (result: Option<Token>)
      requires Valid()
      modifies this
      ensures Kept() && Gives(result, index, old(index), Expect(tokens, old(index), expected))
    {
      var token := PeekToken();
      if token.Some? {
        if token.value.value == expected {
          index := index + 1;
          return token;
        }
        if expected != "" && 'A' <= expected[0] <= 'Z' {
          if expected in SpecialWords && expected == TypeName(token.value.kind) {
            index := index + 1;
            return token;
          }
        }
      }
      return None;
    }
  }
}
