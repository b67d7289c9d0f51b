/**
 The linear bound of packrat parsing: over any run of the parser, from the
 first call on, no body runs twice for one rule, argument and index, so there
 are at most 48 runs for each position of the token list.
 */
module PackratBound {
  import opened Wrappers
  import opened GrammarTree
  import opened GrammarDescent
  import opened PackratParser

  const PlainRules: seq<RuleId> := [
    StartRule, GrammarRule, MetasRule, MetaRule, RulesRule, RuleRule, RuleNameRule,
    MemoFlagRule, AltsRule, MoreAltsRule, AltRule, ItemsRule, NamedItemRule,
    ForcedAtomRule, LookaheadRule, ItemRule, AtomRule, ActionRule, AnnotationRule,
    TargetAtomsRule, TargetAtomRule, NameRule, StringRule, NumberRule, OpRule]

  const Words: seq<string> := [
    "@", ":", "|", "$", "=", "&", "!", "~", "[", "]", "?", "*", "+", ".", "(", ")", "{", "}",
    "memo", "NewLine", "EndMarker", "Indent", "Dedent"]

  /** Numbers the keys: 48 for each position. */
  function KeyNumber(n: nat): Key {
    Key(n / 48, if n % 48 < 25 then PlainRules[n % 48] else ExpectRule(Words[n % 48 - 25]))
  }

  lemma {:induction false} KnownRuleHasNumber(rule: RuleId) returns (code: nat)
    requires Known(rule)
    ensures code < 48
    ensures rule == if code < 25 then PlainRules[code] else ExpectRule(Words[code - 25])
  {
    if rule.ExpectRule? {
      assert rule.expected in Words;
      var i :| 0 <= i < |Words| && Words[i] == rule.expected;
      code := 25 + i;
    } else {
      assert rule in PlainRules;
      code :| 0 <= code < |PlainRules| && PlainRules[code] == rule;
    }
  }

  lemma {:induction false} DistinctItems<T>(s: seq<T>)
    requires forall i, j :: 0 <= i < j < |s| ==> s[i] != s[j]
    ensures |set x | x in s| == |s|
  {
    if s != [] {
      var last := |s| - 1;
      DistinctItems(s[..last]);
      assert (set x | x in s) == (set x | x in s[..last]) + {s[last]};
    }
  }

  lemma {:induction false} NumberedKeysAreFew(keys: set<Key>, n: nat)
    requires forall k :: k in keys ==> exists c: nat :: c < n && KeyNumber(c) == k
    ensures |keys| <= n
  {
    hide KeyNumber;
    if n == 0 {
      assert keys == {};
    } else {
      var last := KeyNumber(n - 1);
      forall k | k in keys - {last} ensures exists c: nat :: c < n - 1 && KeyNumber(c) == k {
        var c: nat :| c < n && KeyNumber(c) == k;
        assert c != n - 1;
      }
      NumberedKeysAreFew(keys - {last}, n - 1);
    }
  }

  /** Packrat parsing is linear. */
  lemma {:induction false} RunsAreLinear(ts: Tokens, level: int, cache: map<Key, Outcome>, running: seq<Key>, runs: nat)
    requires Consistent(ts, level, cache, running, runs)
    ensures runs <= 48 * (|ts| + 1)
  {
    var under := set k | k in running;
    DistinctItems(running);
    var keys := cache.Keys + under;
    forall k | k in keys
      ensures exists c: nat :: c < 48 * (|ts| + 1) && KeyNumber(c) == k
      ensures !(k in cache && k in running)
    {
      assert Noted(k);
      var code := KnownRuleHasNumber(k.rule);
      var c := 48 * k.index + code;
      assert c / 48 == k.index && c % 48 == code;
      assert KeyNumber(c) == k;
    }
    NumberedKeysAreFew(keys, 48 * (|ts| + 1));
    assert cache.Keys !! under;
  }

  /**
   `Peg::parseGrammar` on the tokens of a grammar: a new parser gives the tree of the
   descent, or null where runParser throws, after at most 48 runs for each position.
   */
  method ParseGrammar(ts: Tokens) returns (grammar: Option<Grammar>, end: nat, ghost runs: nat)
    ensures Gives(grammar, end, 0, Start(ts, 0))
    ensures runs <= 48 * (|ts| + 1)
  {
    hide Start, Consistent;
    var parser := new GrammarParser(ts);
    grammar := parser.ReadStart();
    end, runs := parser.index, parser.runs;
    RunsAreLinear(ts, parser.level, parser.cache, parser.running, parser.runs);
  }
}
