/**
 The recursive descent of GrammarParser.php without its cache: one function a
 rule, each giving the tree and the index after it, or a failure. The index
 never moves on failure, always moves on success, and never passes the end
 marker that closes the token list.
 */
module GrammarDescent {
  import opened Wrappers
  import opened GrammarTree

  type Tokens = seq<Token>

  datatype Parsed<+T> = Fail | Ok(value: T, end: nat)

  const SpecialWords: set<string> := {"NewLine", "EndMarker", "Indent", "Dedent"}

  /** The list is closed by the end marker GrammarTokenizer emits last. */
  predicate EndsInMarker(ts: Tokens) {
    |ts| > 0 && ts[|ts| - 1] == Token(EndMarker, "")
  }

  /** The last index a rule other than `start` may move to. */
  function Fence(ts: Tokens): nat {
    if EndsInMarker(ts) then |ts| - 1 else |ts|
  }

  /** PHP's truth value of a string. */
  predicate TruthyText(s: string) {
    s != "" && s != "0"
  }

  function Expect(ts: Tokens, i: nat, expected: string): (r: Parsed<Token>)
    requires i <= |ts|
    ensures r.Ok? ==> r.end == i + 1 <= |ts| && r.value == ts[i]
    ensures r.Ok? && expected != "" && expected != "EndMarker" ==> r.end <= Fence(ts)
  {
    if i == |ts| then Fail
    else if ts[i].value == expected then Ok(ts[i], i + 1)
    else if expected != "" && 'A' <= expected[0] <= 'Z'
            && expected in SpecialWords && expected == TypeName(ts[i].kind) then Ok(ts[i], i + 1)
    else Fail
  }

  /** The readers `name`, `number`, `string` and `op`. */
  function OfType(ts: Tokens, i: nat, kind: TokenType): (r: Parsed<Token>)
    requires i <= |ts|
    ensures r.Ok? ==> r.end == i + 1 <= |ts| && r.value == ts[i]
    ensures r.Ok? && kind != EndMarker ==> r.end <= Fence(ts)
  {
    if i < |ts| && ts[i].kind == kind then Ok(ts[i], i + 1) else Fail
  }

  /** `expect` after a step that may have failed. */
  function Then<T>(ts: Tokens, r: Parsed<T>, expected: string): (e: Parsed<Token>)
    requires r.Ok? ==> r.end <= |ts|
    ensures e.Ok? ==> r.Ok? && e.end == r.end + 1 <= |ts| && e.value == ts[r.end]
    ensures e.Ok? && expected != "" && expected != "EndMarker" ==> e.end <= Fence(ts)
  {
    if r.Ok? then Expect(ts, r.end, expected) else Fail
  }

  // start: grammar $
  function Start(ts: Tokens, i: nat): (r: Parsed<Grammar>)
    requires i <= |ts|
    ensures r.Ok? ==> i < r.end <= |ts|
  {
    var g := GrammarAt(ts, i);
    var e := Then(ts, g, "EndMarker");
    if e.Ok? then Ok(g.value, e.end) else Fail
  }

  // grammar: metas rules | rules
  function GrammarAt(ts: Tokens, i: nat): (r: Parsed<Grammar>)
    requires i <= |ts|
    ensures r.Ok? ==> i < r.end <= Fence(ts)
  {
    var metas := Metas(ts, i);
    var rules := if metas.Ok? then Rules(ts, metas.end) else Fail;
    if rules.Ok? then Ok(MkGrammar(rules.value, metas.value), rules.end)
    else
      var only := Rules(ts, i);
      if only.Ok? then Ok(MkGrammar(only.value, []), only.end) else Fail
  }

  // metas: meta metas | meta
  function Metas(ts: Tokens, i: nat): (r: Parsed<seq<Meta>>)
    requires i <= |ts|
    ensures r.Ok? ==> i < r.end <= Fence(ts) && r.value != []
    decreases |ts| - i
  {
    var meta := MetaAt(ts, i);
    if meta.Fail? then Fail
    else
      var more := Metas(ts, meta.end);
      if more.Ok? then Ok([meta.value] + more.value, more.end) else Ok([meta.value], meta.end)
  }

  // meta: "@" Name NewLine | "@" Name Name NewLine | "@" Name String NewLine
  function MetaAt(ts: Tokens, i: nat): (r: Parsed<Meta>)
    requires i <= |ts|
    ensures r.Ok? ==> i < r.end <= Fence(ts)
  {
    var bare := BareMeta(ts, i);
    var named := ValuedMeta(ts, i, Name);
    if bare.Ok? then bare else if named.Ok? then named else ValuedMeta(ts, i, String)
  }

  // "@" Name NewLine
  function BareMeta(ts: Tokens, i: nat): (r: Parsed<Meta>)
    requires i <= |ts|
    ensures r.Ok? ==> i < r.end <= Fence(ts)
  {
    var at := Expect(ts, i, "@");
    var name := if at.Ok? then OfType(ts, at.end, Name) else Fail;
    var line := Then(ts, name, "NewLine");
    if line.Ok? then Ok(Meta(name.value.value, NoValue), line.end) else Fail
  }

  // "@" Name Name NewLine and "@" Name String NewLine
  function ValuedMeta(ts: Tokens, i: nat, kind: TokenType): (r: Parsed<Meta>)
    requires i <= |ts| && (kind.Name? || kind.String?)
    ensures r.Ok? ==> i < r.end <= Fence(ts)
  {
    var at := Expect(ts, i, "@");
    var name := if at.Ok? then OfType(ts, at.end, Name) else Fail;
    var value := if name.Ok? then OfType(ts, name.end, kind) else Fail;
    var line := Then(ts, value, "NewLine");
    if line.Fail? then Fail
    else if kind.Name? then Ok(Meta(name.value.value, NameValue(value.value.value)), line.end)
    else Ok(Meta(name.value.value, LiteralValue(value.value.value)), line.end)
  }

  // rules: rule rules | rule
  function Rules(ts: Tokens, i: nat): (r: Parsed<seq<Rule>>)
    requires i <= |ts|
    ensures r.Ok? ==> i < r.end <= Fence(ts) && r.value != []
    decreases |ts| - i
  {
    var rule := RuleAt(ts, i);
    if rule.Fail? then Fail
    else
      var more := Rules(ts, rule.end);
      if more.Ok? then Ok([rule.value] + more.value, more.end) else Ok([rule.value], rule.end)
  }

  // rule: rulename memoflag? ":" alts NewLine INDENT more_alts DEDENT
  //     | rulename memoflag? ":" NewLine INDENT more_alts DEDENT
  //     | rulename memoflag? ":" alts NewLine
  function RuleAt(ts: Tokens, i: nat): (r: Parsed<Rule>)
    requires i <= |ts|
    ensures r.Ok? ==> i < r.end <= Fence(ts)
  {
    var long := LongRule(ts, i);
    var block := BlockRule(ts, i);
    if long.Ok? then long else if block.Ok? then block else LineRule(ts, i)
  }

  function LongRule(ts: Tokens, i: nat): (r: Parsed<Rule>)
    requires i <= |ts|
    ensures r.Ok? ==> i < r.end <= Fence(ts)
  {
    var head := RuleHead(ts, i);
    var alts := if head.Ok? then Alts(ts, head.end) else Fail;
    var line := Then(ts, alts, "NewLine");
    var more := if line.Ok? then Block(ts, line.end) else Fail;
    if more.Ok? then Ok(Rule(head.value.name, head.value.annotation, Rhs(alts.value.alts + more.value.alts)), more.end)
    else Fail
  }

  function BlockRule(ts: Tokens, i: nat): (r: Parsed<Rule>)
    requires i <= |ts|
    ensures r.Ok? ==> i < r.end <= Fence(ts)
  {
    var head := RuleHead(ts, i);
    var line := Then(ts, head, "NewLine");
    var more := if line.Ok? then Block(ts, line.end) else Fail;
    if more.Ok? then Ok(Rule(head.value.name, head.value.annotation, more.value), more.end) else Fail
  }

  function LineRule(ts: Tokens, i: nat): (r: Parsed<Rule>)
    requires i <= |ts|
    ensures r.Ok? ==> i < r.end <= Fence(ts)
  {
    var head := RuleHead(ts, i);
    var alts := if head.Ok? then Alts(ts, head.end) else Fail;
    var line := Then(ts, alts, "NewLine");
    if line.Ok? then Ok(Rule(head.value.name, head.value.annotation, alts.value), line.end) else Fail
  }

  // rulename memoflag? ":"
  function RuleHead(ts: Tokens, i: nat): (r: Parsed<RuleName>)
    requires i <= |ts|
    ensures r.Ok? ==> i < r.end <= Fence(ts)
  {
    var name := RuleNameAt(ts, i);
    if name.Fail? then Fail
    else
      var memo := MemoFlag(ts, name.end);
      var colon := Expect(ts, if memo.Ok? then memo.end else name.end, ":");
      if colon.Ok? then Ok(name.value, colon.end) else Fail
  }

  // INDENT more_alts DEDENT
  function Block(ts: Tokens, i: nat): (r: Parsed<Rhs>)
    requires i <= |ts|
    ensures r.Ok? ==> i < r.end <= Fence(ts)
  {
    var open := Expect(ts, i, "Indent");
    var more := if open.Ok? then MoreAlts(ts, open.end) else Fail;
    var close := Then(ts, more, "Dedent");
    if close.Ok? then Ok(more.value, close.end) else Fail
  }

  // rulename: Name annotation | Name
  function RuleNameAt(ts: Tokens, i: nat): (r: Parsed<RuleName>)
    requires i <= |ts|
    ensures r.Ok? ==> i < r.end <= Fence(ts)
  {
    var name := OfType(ts, i, Name);
    if name.Fail? then Fail
    else
      var annotation := Annotation(ts, name.end);
      if annotation.Ok? then Ok(RuleName(name.value.value, Some(annotation.value)), annotation.end)
      else Ok(RuleName(name.value.value, None), name.end)
  }

  // memoflag: '(' "memo" ')'
  function MemoFlag(ts: Tokens, i: nat): (r: Parsed<string>)
    requires i <= |ts|
    ensures r.Ok? ==> i < r.end <= Fence(ts) && TruthyText(r.value)
  {
    var open := Expect(ts, i, "(");
    var memo := Then(ts, open, "memo");
    var close := Then(ts, memo, ")");
    if close.Ok? then Ok("memo", close.end) else Fail
  }

  // alts: alt "|" alts | alt
  function Alts(ts: Tokens, i: nat): (r: Parsed<Rhs>)
    requires i <= |ts|
    ensures r.Ok? ==> i < r.end <= Fence(ts)
    decreases |ts| - i, 6
  {
    var alt := AltAt(ts, i);
    if alt.Fail? then Fail
    else
      var bar := Expect(ts, alt.end, "|");
      var more := if bar.Ok? then Alts(ts, bar.end) else Fail;
      if more.Ok? then Ok(Rhs([alt.value] + more.value.alts), more.end)
      else Ok(Rhs([alt.value]), alt.end)
  }

  // more_alts: "|" alts NewLine more_alts | "|" alts NewLine
  function MoreAlts(ts: Tokens, i: nat): (r: Parsed<Rhs>)
    requires i <= |ts|
    ensures r.Ok? ==> i < r.end <= Fence(ts)
    decreases |ts| - i
  {
    var line := AltsLine(ts, i);
    if line.Fail? then Fail
    else
      var more := MoreAlts(ts, line.end);
      if more.Ok? then Ok(Rhs(line.value.alts + more.value.alts), more.end)
      else Ok(Rhs(line.value.alts), line.end)
  }

  // "|" alts NewLine
  function AltsLine(ts: Tokens, i: nat): (r: Parsed<Rhs>)
    requires i <= |ts|
    ensures r.Ok? ==> i < r.end <= Fence(ts)
  {
    var bar := Expect(ts, i, "|");
    var alts := if bar.Ok? then Alts(ts, bar.end) else Fail;
    var line := Then(ts, alts, "NewLine");
    if line.Ok? then Ok(alts.value, line.end) else Fail
  }

  const EndItem: NamedItem := NamedItem(None, NameLeaf("EndMarker"), None)

  // alt: items '$' action | items '$' | items action | items
  function AltAt(ts: Tokens, i: nat): (r: Parsed<Alt>)
    requires i <= |ts|
    ensures r.Ok? ==> i < r.end <= Fence(ts)
    decreases |ts| - i, 5
  {
    var items := Items(ts, i);
    if items.Fail? then Fail
    else
      var end := Expect(ts, items.end, "$");
      var endAction := if end.Ok? then Action(ts, end.end) else Fail;
      var action := Action(ts, items.end);
      if endAction.Ok? then Ok(Alt(items.value + [EndItem], Some(endAction.value)), endAction.end)
      else if end.Ok? then Ok(Alt(items.value + [EndItem], None), end.end)
      else if action.Ok? then Ok(Alt(items.value, Some(action.value)), action.end)
      else Ok(Alt(items.value, None), items.end)
  }

  // items: named_item items | named_item
  function Items(ts: Tokens, i: nat): (r: Parsed<seq<NamedItem>>)
    requires i <= |ts|
    ensures r.Ok? ==> i < r.end <= Fence(ts) && r.value != []
    decreases |ts| - i, 4
  {
    var item := NamedItemAt(ts, i);
    if item.Fail? then Fail
    else
      var more := Items(ts, item.end);
      if more.Ok? then Ok([item.value] + more.value, more.end) else Ok([item.value], item.end)
  }

  // named_item: Name annotation '=' ~ item | Name '=' ~ item | item | forced_atom | lookahead
  function NamedItemAt(ts: Tokens, i: nat): (r: Parsed<NamedItem>)
    requires i <= |ts|
    ensures r.Ok? ==> i < r.end <= Fence(ts)
    decreases |ts| - i, 3
  {
    var typed := TypedBinding(ts, i);
    var plain := PlainBinding(ts, i);
    if typed.Ok? then
      var item := ItemAt(ts, typed.end);
      if item.Ok? then Ok(NamedItem(Some(typed.value.name), item.value, typed.value.annotation), item.end)
      else Fail
    else if plain.Ok? then
      var item := ItemAt(ts, plain.end);
      if item.Ok? then Ok(NamedItem(Some(plain.value), item.value, None), item.end) else Fail
    else
      var item := ItemAt(ts, i);
      if item.Ok? then Ok(NamedItem(None, item.value, None), item.end)
      else
        var forced := ForcedAtom(ts, i);
        if forced.Ok? then Ok(NamedItem(None, forced.value, None), forced.end)
        else
          var look := LookaheadAt(ts, i);
          if look.Ok? then Ok(NamedItem(None, look.value, None), look.end) else Fail
  }

  // Name annotation '='
  function TypedBinding(ts: Tokens, i: nat): (r: Parsed<RuleName>)
    requires i <= |ts|
    ensures r.Ok? ==> i < r.end <= Fence(ts) && r.value.annotation.Some?
  {
    var name := OfType(ts, i, Name);
    var annotation := if name.Ok? then Annotation(ts, name.end) else Fail;
    var equal := Then(ts, annotation, "=");
    if equal.Ok? then Ok(RuleName(name.value.value, Some(annotation.value)), equal.end) else Fail
  }

  // Name '='
  function PlainBinding(ts: Tokens, i: nat): (r: Parsed<string>)
    requires i <= |ts|
    ensures r.Ok? ==> i < r.end <= Fence(ts)
  {
    var name := OfType(ts, i, Name);
    var equal := Then(ts, name, "=");
    if equal.Ok? then Ok(name.value.value, equal.end) else Fail
  }

  // forced_atom: '&' '&' ~ atom
  function ForcedAtom(ts: Tokens, i: nat): (r: Parsed<Item>)
    requires i <= |ts|
    ensures r.Ok? ==> i < r.end <= Fence(ts)
    decreases |ts| - i, 2
  {
    var first := Expect(ts, i, "&");
    var second := Then(ts, first, "&");
    if second.Fail? then Fail
    else
      var atom := AtomAt(ts, second.end);
      if atom.Ok? then Ok(Forced(atom.value), atom.end) else Fail
  }

  // lookahead: '&' ~ atom | '!' ~ atom | '~'
  function LookaheadAt(ts: Tokens, i: nat): (r: Parsed<Item>)
    requires i <= |ts|
    ensures r.Ok? ==> i < r.end <= Fence(ts)
    decreases |ts| - i, 2
  {
    var ahead := Expect(ts, i, "&");
    var not := Expect(ts, i, "!");
    var cut := Expect(ts, i, "~");
    if ahead.Ok? then
      var atom := AtomAt(ts, ahead.end);
      if atom.Ok? then Ok(PositiveLookahead(atom.value), atom.end) else Fail
    else if not.Ok? then
      var atom := AtomAt(ts, not.end);
      if atom.Ok? then Ok(NegativeLookahead(atom.value), atom.end) else Fail
    else if cut.Ok? then Ok(Cut, cut.end)
    else Fail
  }

  // item: '[' ~ alts ']' | atom '?' | atom '*' | atom '+' | atom '.' atom '+' | atom
  function ItemAt(ts: Tokens, i: nat): (r: Parsed<Item>)
    requires i <= |ts|
    ensures r.Ok? ==> i < r.end <= Fence(ts)
    decreases |ts| - i, 2
  {
    var open := Expect(ts, i, "[");
    if open.Ok? then
      var alts := Alts(ts, open.end);
      var close := Then(ts, alts, "]");
      if close.Ok? then Ok(Opt(RhsItem(alts.value)), close.end) else Fail
    else
      var opt := Marked(ts, i, "?");
      var star := Marked(ts, i, "*");
      var plus := Marked(ts, i, "+");
      var gather := GatherAt(ts, i);
      if opt.Ok? then Ok(Opt(opt.value), opt.end)
      else if star.Ok? then Ok(Repeat0(star.value), star.end)
      else if plus.Ok? then Ok(Repeat1(plus.value), plus.end)
      else if gather.Ok? then gather
      else AtomAt(ts, i)
  }

  // atom '?', atom '*' and atom '+'
  function Marked(ts: Tokens, i: nat, mark: string): (r: Parsed<Item>)
    requires i <= |ts| && mark in {"?", "*", "+"}
    ensures r.Ok? ==> i < r.end <= Fence(ts)
    decreases |ts| - i, 1, 1
  {
    var atom := AtomAt(ts, i);
    var end := Then(ts, atom, mark);
    if end.Ok? then Ok(atom.value, end.end) else Fail
  }

  // atom '.' atom '+'
  function GatherAt(ts: Tokens, i: nat): (r: Parsed<Item>)
    requires i <= |ts|
    ensures r.Ok? ==> i < r.end <= Fence(ts)
    decreases |ts| - i, 1, 1
  {
    var separator := AtomAt(ts, i);
    var dot := Then(ts, separator, ".");
    var node := if dot.Ok? then AtomAt(ts, dot.end) else Fail;
    var plus := Then(ts, node, "+");
    if plus.Ok? then Ok(Gather(separator.value, node.value), plus.end) else Fail
  }

  // atom: '(' ~ alts ')' | Name | String
  function AtomAt(ts: Tokens, i: nat): (r: Parsed<Item>)
    requires i <= |ts|
    ensures r.Ok? ==> i < r.end <= Fence(ts)
    decreases |ts| - i, 1, 0
  {
    var open := Expect(ts, i, "(");
    if open.Ok? then
      var alts := Alts(ts, open.end);
      var close := Then(ts, alts, ")");
      if close.Ok? then Ok(Group(alts.value), close.end) else Fail
    else
      var name := OfType(ts, i, Name);
      var str := OfType(ts, i, String);
      if name.Ok? then Ok(NameLeaf(name.value.value), name.end)
      else if str.Ok? then Ok(StringLeaf(str.value.value), str.end)
      else Fail
  }

  // action: "{" ~ target_atoms "}"
  function Action(ts: Tokens, i: nat): (r: Parsed<string>)
    requires i <= |ts|
    ensures r.Ok? ==> i < r.end <= Fence(ts) && TruthyText(r.value)
  {
    var open := Expect(ts, i, "{");
    var atoms := if open.Ok? then TargetAtoms(ts, open.end) else Fail;
    var close := Then(ts, atoms, "}");
    if close.Ok? then Ok(atoms.value, close.end) else Fail
  }

  // annotation: "[" ~ target_atoms "]"
  function Annotation(ts: Tokens, i: nat): (r: Parsed<string>)
    requires i <= |ts|
    ensures r.Ok? ==> i < r.end <= Fence(ts) && TruthyText(r.value)
  {
    var open := Expect(ts, i, "[");
    var atoms := if open.Ok? then TargetAtoms(ts, open.end) else Fail;
    var close := Then(ts, atoms, "]");
    if close.Ok? then Ok(atoms.value, close.end) else Fail
  }

  // target_atoms: target_atom target_atoms | target_atom
  // A target atom with the text "0" or "" is falsy in PHP and ends the list.
  function TargetAtoms(ts: Tokens, i: nat): (r: Parsed<string>)
    requires i <= |ts|
    ensures r.Ok? ==> i < r.end <= Fence(ts) && TruthyText(r.value)
    decreases |ts| - i, 2
  {
    var atom := TargetAtom(ts, i);
    if atom.Fail? || !TruthyText(atom.value) then Fail
    else
      var more := TargetAtoms(ts, atom.end);
      if more.Ok? then
        var text := atom.value + " " + more.value;
        assert |text| > 1;
        Ok(text, more.end)
      else Ok(atom.value, atom.end)
  }

  predicate IsTrimmed(c: char) {
    c == ' ' || c == '\n' || c == '\r' || c == '\t' || c == 11 as char || c == 0 as char
  }

  /** PHP's `trim`. */
  function Trim(s: string): string {
    if s != "" && IsTrimmed(s[0]) then Trim(s[1..])
    else if s != "" && IsTrimmed(s[|s| - 1]) then Trim(s[..|s| - 1])
    else s
  }

  // target_atom: "{" ~ grammar_action "}" | "[" ~ target_atoms? "]" | Name "*" | Name
  //            | Number | String | "?" | ":" | !"}" !"]" Op
  function TargetAtom(ts: Tokens, i: nat): (r: Parsed<string>)
    requires i <= |ts|
    ensures r.Ok? ==> i < r.end <= Fence(ts)
    decreases |ts| - i, 1
  {
    if i < |ts| && ts[i].kind == GrammarAction then Ok(Trim(ts[i].value), i + 1)
    else
      var open := Expect(ts, i, "[");
      if open.Ok? then
        var inner := TargetAtoms(ts, open.end);
        var close := Expect(ts, if inner.Ok? then inner.end else open.end, "]");
        if close.Ok? then Ok("[]", close.end) else Fail
      else
        var star := StarName(ts, i);
        var name := OfType(ts, i, Name);
        if star.Ok? then star
        else if name.Ok? then Ok(name.value.value, name.end)
        else PlainAtom(ts, i)
  }

  // Number | String | "?" | ":" | !"}" !"]" Op
  function PlainAtom(ts: Tokens, i: nat): (r: Parsed<string>)
    requires i <= |ts|
    ensures r.Ok? ==> i < r.end <= Fence(ts)
  {
    var literal := LiteralAtom(ts, i);
    var question := Expect(ts, i, "?");
    var colon := Expect(ts, i, ":");
    if literal.Ok? then literal
    else if question.Ok? then Ok("?", question.end)
    else if colon.Ok? then Ok(":", colon.end)
    else PlainOp(ts, i)
  }

  // Number | String
  function LiteralAtom(ts: Tokens, i: nat): (r: Parsed<string>)
    requires i <= |ts|
    ensures r.Ok? ==> i < r.end <= Fence(ts)
  {
    var number := OfType(ts, i, Number);
    var str := OfType(ts, i, String);
    if number.Ok? then Ok(number.value.value, number.end)
    else if str.Ok? then Ok(str.value.value, str.end)
    else Fail
  }

  // Name "*"
  function StarName(ts: Tokens, i: nat): (r: Parsed<string>)
    requires i <= |ts|
    ensures r.Ok? ==> i < r.end <= Fence(ts)
  {
    var name := OfType(ts, i, Name);
    var star := Then(ts, name, "*");
    if star.Ok? then Ok(name.value.value + "*", star.end) else Fail
  }

  // !"}" !"]" Op
  function PlainOp(ts: Tokens, i: nat): (r: Parsed<string>)
    requires i <= |ts|
    ensures r.Ok? ==> i < r.end <= Fence(ts)
  {
    var op := OfType(ts, i, Op);
    if Expect(ts, i, "}").Fail? && Expect(ts, i, "]").Fail? && op.Ok? then Ok(op.value.value, op.end) else Fail
  }
}
