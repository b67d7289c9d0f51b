/**
 What every run of the grammar tokenizer keeps besides indentation: the bracket
 level and the kind of its line breaks can be read off the output, and the output
 holds the tokens of the lines in their order.
 */
module TokenizerLaws {
  import opened Wrappers
  import opened GrammarTree
  import opened GrammarTokenizer

  // The bracket level

  predicate Begins(t: Token, marks: set<char>) {
    t.kind == Op && t.value != "" && t.value[0] in marks
  }

  function Opening(ts: seq<Token>): nat {
    if ts == [] then 0 else Opening(ts[..|ts| - 1]) + if Begins(ts[|ts| - 1], {'(', '[', '{'}) then 1 else 0
  }

  function Closing(ts: seq<Token>): nat {
    if ts == [] then 0 else Closing(ts[..|ts| - 1]) + if Begins(ts[|ts| - 1], {')', ']', '}'}) then 1 else 0
  }

  /** Opening less closing bracket operators. */
  function Net(ts: seq<Token>): int {
    Opening(ts) - Closing(ts)
  }

  predicate IsBreak(t: Token) {
    t.kind == NewLine || t.kind == ContinuedNewLine
  }

  /**
   A line break continues a statement where brackets are open before it, and ends one
   otherwise; where lines are skipped, a break with no bracket open may be theirs.
   */
  predicate WellBroken(ts: seq<Token>, skips: bool) {
    forall n :: 0 <= n < |ts| && IsBreak(ts[n]) ==>
      && (ts[n].kind == NewLine ==> Net(ts[..n]) <= 0)
      && (ts[n].kind == ContinuedNewLine ==> Net(ts[..n]) > 0 || (skips && Net(ts[..n]) == 0))
  }

  ghost predicate Leveled(st: State, skips: bool) {
    st.level == Net(st.out) && WellBroken(st.out, skips)
  }

  ghost predicate LeveledStep(step: Step, skips: bool) {
    match step
    case Go(st) => Leveled(st, skips)
    case Stop(out, e) => WellBroken(out, skips) && (e == Finished ==> Net(out) == 0)
  }

  /** The lexemes of a line other than its end are no line breaks. */
  predicate NoBreaks(xs: seq<Lexeme>) {
    forall i :: 0 <= i < |xs| && xs[i].Simple? ==> !IsBreak(xs[i].token)
  }

  predicate LineWithoutBreaks(line: Line) {
    NoBreaks(line.lexemes) && (line.closing.Some? ==> NoBreaks(line.closing.value.lexemes))
  }

  predicate MaySkip(lines: seq<Line>) {
    exists i :: 0 <= i < |lines| && Skipped(lines[i].lexemes)
  }

  lemma {:induction false} NetPush(ts: seq<Token>, t: Token)
    ensures Net(ts + [t]) == Net(ts) + (if Begins(t, {'(', '[', '{'}) then 1 else 0)
                                     - (if Begins(t, {')', ']', '}'}) then 1 else 0)
  {
    assert (ts + [t])[..|ts|] == ts;
  }

  lemma {:induction false} BreakPush(ts: seq<Token>, t: Token, skips: bool)
    requires WellBroken(ts, skips)
    requires t.kind == NewLine ==> Net(ts) <= 0
    requires t.kind == ContinuedNewLine ==> Net(ts) > 0 || (skips && Net(ts) == 0)
    ensures WellBroken(ts + [t], skips)
  {
    hide Net;
    var all := ts + [t];
    forall n | 0 <= n < |all| ensures all[..n] == ts[..n] {
    }
    assert all[..|ts|] == ts && ts[..|ts|] == ts;
  }

  lemma {:induction false} PushLevels(st: State, t: Token, skips: bool)
    requires Leveled(st, skips)
    requires t.kind == NewLine ==> st.level <= 0
    requires t.kind == ContinuedNewLine ==> st.level > 0 || (skips && st.level == 0)
    ensures Leveled(st.(level := st.level + LevelChange(t), out := st.out + [t]), skips)
  {
    NetPush(st.out, t);
    BreakPush(st.out, t, skips);
  }

  lemma {:induction false} OneLexemeLevels(st: State, x: Lexeme, skips: bool)
    requires Leveled(st, skips) && (x.Simple? ==> !IsBreak(x.token))
    ensures LeveledStep(OneLexeme(st, x), skips)
  {
    hide Leveled, WellBroken, Net;
    match x
    case Simple(t) => PushLevels(st, t, skips);
    case Break(text) => PushLevels(st, Token(if st.level > 0 then ContinuedNewLine else NewLine, text), skips);
    case Brace(Some(action)) =>
      var next := st.(level := st.level + 1, out := st.out + [Token(Op, "{")]);
      PushLevels(st, Token(Op, "{"), skips);
      PushLevels(next, Token(GrammarAction, action), skips);
      assert st.out + [Token(Op, "{"), Token(GrammarAction, action)] == next.out + [Token(GrammarAction, action)];
    case Brace(None) =>
      PushLevels(st, Token(Op, "{"), skips);
      Broken(st.(level := st.level + 1, out := st.out + [Token(Op, "{")]), skips);
    case _ => Broken(st, skips);
  }

  lemma {:induction false} Broken(st: State, skips: bool)
    requires Leveled(st, skips)
    ensures WellBroken(st.out, skips)
    ensures forall st': State :: st'.level == st.level && st'.out == st.out ==> Leveled(st', skips)
  {
  }

  lemma {:induction false} LexemesLevel(st: State, xs: seq<Lexeme>, skips: bool)
    requires Leveled(st, skips) && NoBreaks(xs)
    ensures LeveledStep(Lexemes(st, xs), skips)
    decreases |xs|
  {
    hide Leveled, OneLexeme;
    if xs != [] {
      OneLexemeLevels(st, xs[0], skips);
      var step := OneLexeme(st, xs[0]);
      if step.Go? && !xs[0].Quote? {
        LexemesLevel(step.state, xs[1..], skips);
      }
    }
  }

  lemma {:induction false} PlainLevels(st: State, ts: seq<Token>, skips: bool)
    requires Leveled(st, skips) && forall i :: 0 <= i < |ts| ==> LevelChange(ts[i]) == 0 && !IsBreak(ts[i])
    ensures Leveled(st.(out := st.out + ts), skips)
    decreases |ts|
  {
    hide Leveled, LevelChange, IsBreak;
    if ts == [] {
      assert st.out + ts == st.out;
    } else {
      assert !IsBreak(ts[0]) && LevelChange(ts[0]) == 0;
      NoBreakToken(ts[0]);
      PushLevels(st, ts[0], skips);
      PlainLevels(st.(out := st.out + [ts[0]]), ts[1..], skips);
      assert st.out + ts == st.out + [ts[0]] + ts[1..];
    }
  }

  lemma {:induction false} NoBreakToken(t: Token)
    ensures !IsBreak(t) ==> t.kind != NewLine && t.kind != ContinuedNewLine
  {
  }

  lemma {:induction false} DedentTokens(indents: seq<nat>, column: nat)
    ensures forall i :: 0 <= i < |Dedents(indents, column).1| ==> Dedents(indents, column).1[i] == Token(Dedent, "")
    decreases |indents|
  {
    if column < Top(indents) && column in indents {
      DedentTokens(indents[..|indents| - 1], column);
    }
  }

  lemma {:induction false} IndentationLevels(st: State, margin: string, skips: bool)
    requires Leveled(st, skips)
    ensures LeveledStep(Indentation(st, margin), skips)
  {
    hide Leveled, WellBroken, Net, Column, Dedents;
    var column := Column(margin);
    var (rest, out) := Dedents(st.indents, column);
    DedentTokens(st.indents, column);
    PlainLevels(st, out, skips);
    PlainLevels(st, [Token(Indent, margin)], skips);
    Broken(st.(out := st.out + out), skips);
    Broken(st.(out := st.out + [Token(Indent, margin)]), skips);
  }

  lemma {:induction false} SkippedLevels(st: State, xs: seq<Lexeme>)
    requires Leveled(st, true) && Skipped(xs) && st.level == 0
    ensures Leveled(st.(out := st.out + SkippedTokens(xs)), true)
  {
    hide Leveled;
    if xs[0].Break? {
      PushLevels(st, Token(ContinuedNewLine, xs[0].text), true);
    } else {
      var a, b := xs[0].token, Token(ContinuedNewLine, if |xs| > 1 && xs[1].Break? then xs[1].text else "");
      PushLevels(st, a, true);
      PushLevels(st.(out := st.out + [a]), b, true);
      assert st.out + [a, b] == st.out + [a] + [b];
    }
  }

  lemma {:induction false} CloseLevels(st: State, skips: bool)
    requires Leveled(st, skips) && st.level == 0
    ensures Close(st).Stop? && LeveledStep(Close(st), skips)
  {
    hide Leveled, LacksNewLine, WellBroken, Net;
    var end := Token(EndMarker, "");
    var line := if LacksNewLine(st.lastLine) then [Token(NewLine, "")] else [];
    var dedents := if st.indents == [] then [] else Repeat(Token(Dedent, ""), |st.indents| - 1);
    PushLevels(st, Token(NewLine, ""), skips);
    assert st.out + [] == st.out;
    var next := st.(out := st.out + line);
    assert Leveled(next, skips);
    RepeatIs(Token(Dedent, ""), |dedents|);
    PlainLevels(next, dedents, skips);
    PlainLevels(next.(out := next.out + dedents), [end], skips);
    LevelIsNet(next.(out := next.out + dedents + [end]), skips);
  }

  lemma {:induction false} RepeatIs(t: Token, n: nat)
    ensures forall i :: 0 <= i < n ==> Repeat(t, n)[i] == t
  {
    if n > 0 {
      RepeatIs(t, n - 1);
    }
  }

  lemma {:induction false} LevelIsNet(st: State, skips: bool)
    requires Leveled(st, skips)
    ensures st.level == Net(st.out) && WellBroken(st.out, skips)
  {
  }

  lemma {:induction false} LineStepLevels(st: State, line: Line, skips: bool)
    requires Leveled(st, skips) && LineWithoutBreaks(line) && (Skipped(line.lexemes) ==> skips)
    ensures LeveledStep(LineStep(st, line), skips)
  {
    hide Leveled, WellBroken, Net, Lexemes, Indentation, Close, SkippedTokens, NoBreaks;
    Broken(st, skips);
    var here := st.(lastLine := line.text);
    if st.open.Some? {
      if line.closing.Some? {
        var Closing(text, xs) := line.closing.value;
        PlainLevels(here, [Token(String, st.open.value + text)], skips);
        var next := here.(open := None, needCont := false, out := st.out + [Token(String, st.open.value + text)]);
        Broken(here.(out := st.out + [Token(String, st.open.value + text)]), skips);
        LexemesLevel(next, xs, skips);
      } else {
        PlainLevels(here, [Token(ErrorMarker, st.open.value + line.text)], skips);
        Broken(here.(out := st.out + [Token(ErrorMarker, st.open.value + line.text)]), skips);
      }
    } else if st.level == 0 && !st.continued {
      if line.lexemes == [] {
        CloseLevels(st, skips);
      } else if Skipped(line.lexemes) {
        SkippedLevels(here, line.lexemes);
      } else {
        IndentationLevels(here, line.margin, skips);
        var step := Indentation(here, line.margin);
        if step.Go? {
          LexemesLevel(step.state, line.lexemes, skips);
        }
      }
    } else {
      LexemesLevel(here.(continued := false), line.lexemes, skips);
    }
  }

  lemma {:induction false} AtEndLevels(st: State, skips: bool)
    requires Leveled(st, skips)
    ensures AtEnd(st).Stop? && LeveledStep(AtEnd(st), skips)
    ensures AtEnd(st).ending == if st.open.Some? then OpenString else if Net(st.out) != 0 then Endless else Finished
  {
    hide WellBroken, Net;
    Broken(st, skips);
    if st.open.None? && st.level == 0 {
      CloseLevels(if st.continued then st.(lastLine := "") else st, skips);
    }
  }

  /**
   In every state that a run starts a line in, the level is the number of opening less
   closing bracket operators emitted so far. In the whole output a line break continues a
   statement exactly where that number is positive before it, but for the lines of a
   comment or of nothing, which break where it is 0.
   */
  lemma {:induction false} RunKeepsLevel(st: State, lines: seq<Line>, skips: bool)
    requires Leveled(st, skips) && forall i :: 0 <= i < |lines| ==> LineWithoutBreaks(lines[i])
    requires MaySkip(lines) ==> skips
    ensures forall s :: s in Reached(st, lines) ==> s.level == Net(s.out)
    ensures WellBroken(Run(st, lines).out, skips)
    ensures Run(st, lines).ending == Finished ==> Net(Run(st, lines).out) == 0
    decreases |lines|
  {
    hide LineStep, AtEnd, Leveled, WellBroken, Net;
    LevelIsNet(st, skips);
    if lines == [] {
      AtEndLevels(st, skips);
    } else {
      assert Skipped(lines[0].lexemes) ==> MaySkip(lines);
      LineStepLevels(st, lines[0], skips);
      var step := LineStep(st, lines[0]);
      if step.Go? {
        var rest := lines[1..];
        if MaySkip(rest) {
          var i :| 0 <= i < |rest| && Skipped(rest[i].lexemes);
          assert Skipped(lines[i + 1].lexemes);
        }
        RunKeepsLevel(step.state, rest, skips);
      }
    }
  }

  /**
   A run that gets through all its lines ends in an open string, or never where brackets
   are open, and otherwise finishes.
   */
  lemma {:induction false} EndsByItsBrackets(st: State, lines: seq<Line>, skips: bool)
    requires Leveled(st, skips) && forall i :: 0 <= i < |lines| ==> LineWithoutBreaks(lines[i])
    requires (MaySkip(lines) ==> skips) && |Reached(st, lines)| == |lines| + 1
    ensures var last := Reached(st, lines)[|lines|];
            Run(st, lines).ending
            == if last.open.Some? then OpenString else if Net(last.out) != 0 then Endless else Finished
    decreases |lines|
  {
    hide LineStep, AtEnd, Leveled, WellBroken, Net;
    if lines == [] {
      AtEndLevels(st, skips);
    } else {
      assert Skipped(lines[0].lexemes) ==> MaySkip(lines);
      LineStepLevels(st, lines[0], skips);
      var rest := lines[1..];
      if MaySkip(rest) {
        var i :| 0 <= i < |rest| && Skipped(rest[i].lexemes);
        assert Skipped(lines[i + 1].lexemes);
      }
      EndsByItsBrackets(LineStep(st, lines[0]).state, rest, skips);
    }
  }

  lemma {:induction false} InitialIsLeveled()
    ensures Leveled(Initial, false) && Leveled(Initial, true)
  {
  }

  // The tokens of the lines

  predicate IsWord(t: Token) {
    t.kind != Indent && t.kind != Dedent && t.kind != NewLine && t.kind != ContinuedNewLine && t.kind != EndMarker
  }

  /** The output without its layout. */
  function Words(ts: seq<Token>): seq<Token> {
    if ts == [] then []
    else Words(ts[..|ts| - 1]) + if IsWord(ts[|ts| - 1]) then [ts[|ts| - 1]] else []
  }

  function Told(xs: seq<Lexeme>): seq<Token> {
    if xs == [] then []
    else
      (match xs[0]
       case Simple(t) => [t]
       case Brace(Some(action)) => [Token(Op, "{"), Token(GrammarAction, action)]
       case _ => [])
      + Told(xs[1..])
  }

  function ToldBy(lines: seq<Line>): seq<Token> {
    if lines == [] then [] else Told(lines[0].lexemes) + ToldBy(lines[1..])
  }

  /** Lexemes without an open string or action, and with a comment only before the end of the line. */
  predicate Calm(xs: seq<Lexeme>) {
    xs == [] ||
    (&& !xs[0].Quote? && xs[0] != Brace(None) && !xs[0].TripleOnOneLine?
     && (xs[0].Simple? ==>
           && IsWord(xs[0].token)
           && (xs[0].token.kind == Comment ==> |xs| <= 2 && (|xs| == 2 ==> xs[1].Break?)))
     && Calm(xs[1..]))
  }

  predicate CalmLines(lines: seq<Line>) {
    forall i :: 0 <= i < |lines| ==> Calm(lines[i].lexemes)
  }

  lemma {:induction false} WordsPush(ts: seq<Token>, t: Token)
    ensures Words(ts + [t]) == Words(ts) + if IsWord(t) then [t] else []
  {
    assert (ts + [t])[..|ts|] == ts;
  }

  lemma {:induction false} NoWordsAdded(ts: seq<Token>, layout: seq<Token>)
    requires forall i :: 0 <= i < |layout| ==> !IsWord(layout[i])
    ensures Words(ts + layout) == Words(ts)
    decreases |layout|
  {
    if layout == [] {
      assert ts + layout == ts;
    } else {
      var n := |layout| - 1;
      NoWordsAdded(ts, layout[..n]);
      WordsPush(ts + layout[..n], layout[n]);
      assert ts + layout == ts + layout[..n] + [layout[n]];
    }
  }

  lemma {:induction false} LexemesTell(st: State, xs: seq<Lexeme>)
    requires Calm(xs) && st.open.None?
    ensures var step := Lexemes(st, xs);
            step.Go? && step.state.open.None? && Words(step.state.out) == Words(st.out) + Told(xs)
    decreases |xs|
  {
    hide Words, OneLexeme, IsWord;
    if xs == [] {
      assert Words(st.out) + [] == Words(st.out);
    } else {
      OneLexemeTells(st, xs[0]);
      var next := OneLexeme(st, xs[0]).state;
      LexemesTell(next, xs[1..]);
      assert xs == [xs[0]] + xs[1..];
      ToldOne(xs);
    }
  }

  lemma {:induction false} ToldOne(xs: seq<Lexeme>)
    requires xs != []
    ensures Told(xs) == Told([xs[0]]) + Told(xs[1..])
  {
    assert [xs[0]][1..] == [];
  }

  lemma {:induction false} OneLexemeTells(st: State, x: Lexeme)
    requires st.open.None? && !x.Quote? && x != Brace(None) && !x.TripleOnOneLine?
    requires x.Simple? ==> IsWord(x.token)
    ensures var step := OneLexeme(st, x);
            step.Go? && step.state.open.None? && Words(step.state.out) == Words(st.out) + Told([x])
  {
    hide Words;
    assert [x][1..] == [];
    match x
    case Simple(t) => WordsPush(st.out, t);
    case Break(text) => WordsPush(st.out, Token(if st.level > 0 then ContinuedNewLine else NewLine, text));
    case Backslash =>
    case Brace(Some(action)) =>
      var a, b := Token(Op, "{"), Token(GrammarAction, action);
      WordsPush(st.out, a);
      WordsPush(st.out + [a], b);
      assert st.out + [a, b] == st.out + [a] + [b];
      assert Words(st.out) + [a] + [b] == Words(st.out) + [a, b];
  }

  lemma {:induction false} SkippedTells(xs: seq<Lexeme>, out: seq<Token>)
    requires Calm(xs) && Skipped(xs) && (xs[0].Break? ==> |xs| == 1)
    ensures Words(out + SkippedTokens(xs)) == Words(out) + Told(xs)
  {
    hide Words;
    assert xs[0].Break? ==> xs[1..] == [];
    if xs[0].Break? {
      WordsPush(out, Token(ContinuedNewLine, xs[0].text));
    } else {
      var a, b := xs[0].token, Token(ContinuedNewLine, if |xs| > 1 && xs[1].Break? then xs[1].text else "");
      WordsPush(out, a);
      WordsPush(out + [a], b);
      assert out + [a, b] == out + [a] + [b];
      ToldOne(xs);
      ToldOne([xs[0]]);
      assert [xs[0]][1..] == [] && Words(out) + [a] == Words(out) + Told([xs[0]]);
      NothingTold(xs[1..]);
      assert Told(xs) == [a];
    }
  }

  lemma {:induction false} NothingTold(xs: seq<Lexeme>)
    requires |xs| <= 1 && (|xs| == 1 ==> xs[0].Break?)
    ensures Told(xs) == []
  {
    assert |xs| == 1 ==> xs[1..] == [];
  }

  lemma {:induction false} IndentationTells(st: State, margin: string)
    requires Indentation(st, margin).Go?
    ensures var next := Indentation(st, margin).state; next.open == st.open && Words(next.out) == Words(st.out)
  {
    hide Words, Dedents, Column;
    var column := Column(margin);
    DedentTokens(st.indents, column);
    NoWordsAdded(st.out, Dedents(st.indents, column).1);
    WordsPush(st.out, Token(Indent, margin));
  }

  lemma {:induction false} LineStepTells(st: State, line: Line)
    requires st.open.None? && Calm(line.lexemes) && LineStep(st, line).Go?
    requires line.lexemes != [] && line.lexemes[0].Break? ==> |line.lexemes| == 1
    ensures var next := LineStep(st, line).state;
            next.open.None? && Words(next.out) == Words(st.out) + Told(line.lexemes)
  {
    hide Words, Told, Indentation, Lexemes, Calm, SkippedTokens;
    var here := st.(lastLine := line.text);
    if st.level == 0 && !st.continued {
      if Skipped(line.lexemes) {
        SkippedTells(line.lexemes, st.out);
      } else if Indentation(here, line.margin).Go? {
        IndentationTells(here, line.margin);
        LexemesTell(Indentation(here, line.margin).state, line.lexemes);
      }
    } else {
      LexemesTell(here.(continued := false), line.lexemes);
    }
  }

  lemma {:induction false} StoppedAtOnce(st: State, lines: seq<Line>)
    requires lines != [] && LineStep(st, lines[0]).Stop?
    ensures Reached(st, lines) == [st]
  {
    hide LineStep;
    assert [st] + [] == [st];
  }

  /**
   In every state that a run reaches, the output without its layout is the tokens of the
   lines read so far, in their order: none is lost, added or moved.
   */
  lemma {:induction false} RunTellsItsLines(st: State, lines: seq<Line>, n: nat)
    requires st.open.None? && CalmLines(lines) && n < |Reached(st, lines)|
    requires forall i :: 0 <= i < |lines| && lines[i].lexemes != [] && lines[i].lexemes[0].Break? ==>
               |lines[i].lexemes| == 1
    ensures n <= |lines| && Reached(st, lines)[n].open.None?
    ensures Words(Reached(st, lines)[n].out) == Words(st.out) + ToldBy(lines[..n])
    decreases |lines|
  {
    hide Words, Told, LineStep, Calm, Reached;
    if lines == [] {
      NoLines(st);
    } else if LineStep(st, lines[0]).Go? {
      FirstLine(st, lines);
    } else {
      StoppedAtOnce(st, lines);
    }
    if n == 0 {
      assert lines[..0] == [] && Words(st.out) + [] == Words(st.out);
    } else {
      LineStepTells(st, lines[0]);
      var next := LineStep(st, lines[0]).state;
      RunTellsItsLines(next, lines[1..], n - 1);
      assert lines[..n][0] == lines[0] && lines[..n][1..] == lines[1..][..n - 1];
    }
  }

  function TextOf(lines: seq<Line>): string {
    if lines == [] then "" else lines[0].text + TextOf(lines[1..])
  }

  lemma {:induction false} FirstLine(st: State, lines: seq<Line>)
    requires lines != [] && LineStep(st, lines[0]).Go?
    ensures var next := LineStep(st, lines[0]).state;
            && Reached(st, lines) == [st] + Reached(next, lines[1..])
            && Run(st, lines) == Run(next, lines[1..])
  {
    hide LineStep;
  }

  lemma {:induction false} NoLines(st: State)
    ensures Reached(st, []) == [st] && Run(st, []) == AtEnd(st)
  {
    assert [st] + [] == [st];
  }

  /** The line that closes an open string gives the string as one token, before its own lexemes. */
  lemma {:induction false} ClosingGivesTheString(st: State, line: Line)
    requires st.open.Some? && line.closing.Some?
    ensures LineStep(st, line)
         == Lexemes(State(st.indents, st.level, st.continued, None, false, line.text,
                          st.out + [Token(String, st.open.value + line.closing.value.text)]),
                    line.closing.value.lexemes)
  {
  }
}
