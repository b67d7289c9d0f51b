/**
 GrammarTokenizer.php: the loop over lines that keeps the indentation stack,
 the bracket level and the state of continued strings and statements. What the
 regular expressions find on a line is taken as given, lexeme by lexeme.
 */
module GrammarTokenizer {
  import opened Wrappers
  import opened GrammarTree

  datatype Lexeme =
    | Simple(token: Token)              // a number, comment, string, name, operator or unmatched character
    | Break(text: string)              // the end of the line
    | Backslash                        // a continued statement
    | Brace(action: Option<string>)    // `{` and the action up to its `}`, if that is found
    | Quote(text: string, triple: bool) // a string that the line leaves open
    | TripleOnOneLine                  // mb_strlen() is given an array: a TypeError

  // How a line goes on that starts inside a string: the text that closes it and the lexemes after it.
  datatype Closing = Closing(text: string, lexemes: seq<Lexeme>)

  datatype Line = Line(text: string, margin: string, lexemes: seq<Lexeme>, closing: Option<Closing>)

  datatype Ending =
    | Finished
    | BadIndent       // IndentationException
    | OpenString      // TokenException: end of file in a multi-line string
    | OpenAction      // NotImplementedException
    | Fault           // TypeError
    | Endless         // end of file inside brackets: the loop never leaves

  // The local variables of the source.
  datatype State = State(
    indents: seq<nat>,
    level: int,
    continued: bool,
    open: Option<string>, // the continued string read so far
    needCont: bool,
    lastLine: string,
    out: seq<Token>)

  const Initial := State([0], 0, false, None, false, "", [])

  // Either the state after a line, or the end of the run.
  datatype Step = Go(state: State) | Stop(out: seq<Token>, ending: Ending)

  // Lines

  const TabSize := 4

  /** The column that the margin reaches. */
  function Column(margin: string): nat {
    if margin == "" then 0
    else
      var before := Column(margin[..|margin| - 1]);
      var c := margin[|margin| - 1];
      if c == '\t' then (before / TabSize + 1) * TabSize
      else if c == 12 as char then 0
      else before + 1
  }

  predicate EndsWith(s: string, tail: string) {
    |tail| <= |s| && s[|s| - |tail|..] == tail
  }

  function Top(indents: seq<nat>): nat {
    if indents == [] then 0 else indents[|indents| - 1]
  }

  // One dedent for each level above the column; the stack when the column is found, or None.
  function Dedents(indents: seq<nat>, column: nat): (r: (Option<seq<nat>>, seq<Token>)) {
    if column < Top(indents) then
      if column !in indents then (None, [])
      else
        var (rest, out) := Dedents(indents[..|indents| - 1], column);
        (rest, [Token(Dedent, "")] + out)
    else (Some(indents), [])
  }

  /** Indentation of a new statement. */
  function Indentation(st: State, margin: string): Step {
    var column := Column(margin);
    if column > Top(st.indents) then
      Go(st.(indents := st.indents + [column], out := st.out + [Token(Indent, margin)]))
    else
      var (rest, out) := Dedents(st.indents, column);
      if rest.None? then Stop(st.out + out, BadIndent)
      else Go(st.(indents := rest.value, out := st.out + out))
  }

  function LevelChange(t: Token): int {
    if t.kind != Op || t.value == "" then 0
    else if t.value[0] in {'(', '[', '{'} then 1
    else if t.value[0] in {')', ']', '}'} then -1
    else 0
  }

  function OneLexeme(st: State, x: Lexeme): Step {
    match x
    case Simple(t) => Go(st.(level := st.level + LevelChange(t), out := st.out + [t]))
    case Break(text) =>
      Go(st.(out := st.out + [Token(if st.level > 0 then ContinuedNewLine else NewLine, text)]))
    case Backslash => Go(st.(continued := true))
    case Brace(Some(action)) =>
      Go(st.(level := st.level + 1, out := st.out + [Token(Op, "{"), Token(GrammarAction, action)]))
    case Brace(None) => Stop(st.out + [Token(Op, "{")], OpenAction)
    case Quote(text, triple) => Go(st.(open := Some(text), needCont := st.needCont || !triple))
    case TripleOnOneLine => Stop(st.out, Fault)
  }

  /** The lexemes of a line, up to a string that is left open. */
  function Lexemes(st: State, xs: seq<Lexeme>): Step
    decreases |xs|
  {
    if xs == [] then Go(st)
    else
      match OneLexeme(st, xs[0])
      case Stop(out, e) => Stop(out, e)
      case Go(next) => if xs[0].Quote? then Go(next) else Lexemes(next, xs[1..])
  }

  /** A line on which a statement may begin consists of a comment or of nothing. */
  predicate Skipped(xs: seq<Lexeme>) {
    xs != [] && (xs[0].Break? || (xs[0].Simple? && xs[0].token.kind == Comment))
  }

  function SkippedTokens(xs: seq<Lexeme>): seq<Token>
    requires Skipped(xs)
  {
    if xs[0].Break? then [Token(ContinuedNewLine, xs[0].text)]
    else [xs[0].token, Token(ContinuedNewLine, if |xs| > 1 && xs[1].Break? then xs[1].text else "")]
  }

  function LineStep(st: State, line: Line): Step {
    var here := st.(lastLine := line.text);
    if st.open.Some? then
      match line.closing
      case Some(Closing(text, xs)) =>
        Lexemes(here.(open := None, needCont := false, out := st.out + [Token(String, st.open.value + text)]), xs)
      case None =>
        if st.needCont && !EndsWith(line.text, "\\\n") && !EndsWith(line.text, "\\\r\n") then
          Go(here.(open := None, out := st.out + [Token(ErrorMarker, st.open.value + line.text)]))
        else Go(here.(open := Some(st.open.value + line.text)))
    else if st.level == 0 && !st.continued then
      if line.lexemes == [] then Close(st)
      else if Skipped(line.lexemes) then Go(here.(out := st.out + SkippedTokens(line.lexemes)))
      else
        match Indentation(here, line.margin)
        case Stop(out, e) => Stop(out, e)
        case Go(next) => Lexemes(next, line.lexemes)
    else Lexemes(here.(continued := false), line.lexemes)
  }

  predicate LacksNewLine(lastLine: string) {
    lastLine != "" && lastLine[|lastLine| - 1] !in {'\r', '\n'} && !StartsComment(lastLine)
  }

  // str_starts_with(trim($lastLine), '#')
  predicate StartsComment(s: string) {
    s != "" && (s[0] == '#' || (s[0] in {' ', '\t', '\n', '\r', 11 as char, 0 as char} && StartsComment(s[1..])))
  }

  function Repeat(t: Token, n: nat): (r: seq<Token>)
    ensures |r| == n
  {
    if n == 0 then [] else [t] + Repeat(t, n - 1)
  }

  /** What is emitted once the loop is left. */
  function Close(st: State): Step {
    var line := if LacksNewLine(st.lastLine) then [Token(NewLine, "")] else [];
    var dedents := if st.indents == [] then [] else Repeat(Token(Dedent, ""), |st.indents| - 1);
    Stop(st.out + line + dedents + [Token(EndMarker, "")], Finished)
  }

  /** The end of the file. */
  function AtEnd(st: State): Step {
    if st.open.Some? then Stop(st.out, OpenString)
    else if st.level != 0 then Stop(st.out, Endless)
    else Close(if st.continued then st.(lastLine := "") else st)
  }

  function Run(st: State, lines: seq<Line>): (r: Step)
    ensures r.Stop?
    decreases |lines|
  {
    if lines == [] then AtEnd(st)
    else
      match LineStep(st, lines[0])
      case Stop(out, e) => Stop(out, e)
      case Go(next) => Run(next, lines[1..])
  }

  // Indentation over whole runs

  function Count(ts: seq<Token>, kind: TokenType): nat {
    if ts == [] then 0 else Count(ts[..|ts| - 1], kind) + if ts[|ts| - 1].kind == kind then 1 else 0
  }

  /** No prefix closes more blocks than it opens. */
  predicate Nested(ts: seq<Token>) {
    forall n :: 0 <= n <= |ts| ==> Count(ts[..n], Dedent) <= Count(ts[..n], Indent)
  }

  predicate Increasing(s: seq<nat>) {
    forall i, j :: 0 <= i < j < |s| ==> s[i] < s[j]
  }

  // The lexemes themselves are no layout tokens.
  predicate NoLayout(xs: seq<Lexeme>) {
    forall i :: 0 <= i < |xs| ==> xs[i].Simple? ==> !IsLayout(xs[i].token)
  }

  predicate IsLayout(t: Token) {
    t.kind == Indent || t.kind == Dedent || t.kind == EndMarker
  }

  predicate LineWithoutLayout(line: Line) {
    NoLayout(line.lexemes) && (line.closing.Some? ==> NoLayout(line.closing.value.lexemes))
  }

  predicate SoundStack(st: State) {
    Balanced(st.indents, st.out)
  }

  predicate Balanced(indents: seq<nat>, out: seq<Token>) {
    && indents != [] && indents[0] == 0 && Increasing(indents)
    && |indents| == 1 + Count(out, Indent) - Count(out, Dedent)
    && Nested(out)
    && Count(out, EndMarker) == 0
  }

  predicate SoundStop(out: seq<Token>, ending: Ending) {
    && Nested(out)
    && (ending.Finished? ==>
          && Count(out, Indent) == Count(out, Dedent)
          && Count(out, EndMarker) == 1 && out[|out| - 1] == Token(EndMarker, ""))
  }

  predicate Sound(s: Step) {
    match s
    case Go(st) => SoundStack(st)
    case Stop(out, e) => SoundStop(out, e)
  }

  lemma {:induction false} CountConcat(a: seq<Token>, b: seq<Token>, kind: TokenType)
    ensures Count(a + b, kind) == Count(a, kind) + Count(b, kind)
  {
    if b == [] {
      assert a + b == a;
    } else {
      CountConcat(a, b[..|b| - 1], kind);
      assert (a + b)[..|a + b| - 1] == a + b[..|b| - 1];
    }
  }

  lemma {:induction false} CountPush(a: seq<Token>, t: Token, kind: TokenType)
    ensures Count(a + [t], kind) == Count(a, kind) + if t.kind == kind then 1 else 0
  {
    assert (a + [t])[..|a|] == a;
  }

  lemma {:induction false} NestedPush(a: seq<Token>, t: Token)
    requires Nested(a)
    requires t.kind == Dedent ==> Count(a, Dedent) < Count(a, Indent)
    ensures Nested(a + [t])
  {
    assert Count(a[..|a|], Dedent) <= Count(a[..|a|], Indent);
    assert a[..|a|] == a;
    forall n | 0 <= n <= |a + [t]|
      ensures Count((a + [t])[..n], Dedent) <= Count((a + [t])[..n], Indent)
    {
      if n <= |a| {
        assert (a + [t])[..n] == a[..n];
      } else {
        assert (a + [t])[..n] == a + [t];
        CountPush(a, t, Dedent);
        CountPush(a, t, Indent);
      }
    }
  }

  /** A token that is no layout keeps the stack sound. */
  lemma {:induction false} PushKeeps(st: State, t: Token)
    requires SoundStack(st) && !IsLayout(t)
    ensures SoundStack(st.(out := st.out + [t]))
  {
    NestedPush(st.out, t);
    CountPush(st.out, t, Dedent);
    CountPush(st.out, t, Indent);
    CountPush(st.out, t, EndMarker);
  }

  lemma {:induction false} DedentsKeep(st: State, column: nat)
    requires SoundStack(st)
    ensures var (rest, out) := Dedents(st.indents, column);
            && Nested(st.out + out)
            && (rest.Some? ==> SoundStack(st.(indents := rest.value, out := st.out + out)))
    ensures Dedents(st.indents, column).0.Some? <==> (column in st.indents || Top(st.indents) < column)
    decreases |st.indents|
  {
    hide Nested, Count, Increasing;
    var indents := st.indents;
    if column < Top(indents) && column in indents {
      var t := Token(Dedent, "");
      var next := st.(indents := indents[..|indents| - 1], out := st.out + [t]);
      OneDedent(st, column);
      DedentsKeep(next, column);
      var (rest, out) := Dedents(next.indents, column);
      assert st.out + ([t] + out) == next.out + out;
    } else {
      assert st.out + [] == st.out;
    }
  }

  lemma {:induction false} OneDedent(st: State, column: nat)
    requires SoundStack(st) && column < Top(st.indents) && column in st.indents
    ensures |st.indents| > 1
    ensures SoundStack(st.(indents := st.indents[..|st.indents| - 1], out := st.out + [Token(Dedent, "")]))
    ensures column in st.indents[..|st.indents| - 1]
  {
    var t := Token(Dedent, "");
    NestedPush(st.out, t);
    CountPush(st.out, t, Dedent);
    CountPush(st.out, t, Indent);
    CountPush(st.out, t, EndMarker);
  }

  lemma {:induction false} IndentationKeeps(st: State, margin: string)
    requires SoundStack(st)
    ensures Sound(Indentation(st, margin))
  {
    var column := Column(margin);
    if column > Top(st.indents) {
      var t := Token(Indent, margin);
      NestedPush(st.out, t);
      CountPush(st.out, t, Dedent);
      CountPush(st.out, t, Indent);
      CountPush(st.out, t, EndMarker);
    } else {
      DedentsKeep(st, column);
    }
  }

  lemma {:induction false} OneLexemeKeeps(st: State, x: Lexeme)
    requires SoundStack(st) && (x.Simple? ==> !IsLayout(x.token))
    ensures Sound(OneLexeme(st, x))
  {
    hide Balanced, SoundStop;
    StoppedShort(st.indents, st.out);
    match x
    case Simple(t) => PushKeeps(st, t);
    case Break(text) => PushKeeps(st, Token(if st.level > 0 then ContinuedNewLine else NewLine, text));
    case Brace(Some(action)) => PushTwoKeeps(st, Token(Op, "{"), Token(GrammarAction, action));
    case Brace(None) =>
      PushKeeps(st, Token(Op, "{"));
      StoppedShort(st.indents, st.out + [Token(Op, "{")]);
    case _ =>
  }

  lemma {:induction false} PushTwoKeeps(st: State, a: Token, b: Token)
    requires SoundStack(st) && !IsLayout(a) && !IsLayout(b)
    ensures SoundStack(st.(out := st.out + [a, b]))
  {
    hide Balanced;
    PushKeeps(st, a);
    PushKeeps(st.(out := st.out + [a]), b);
    assert st.out + [a, b] == st.out + [a] + [b];
  }

  lemma {:induction false} LexemesKeep(st: State, xs: seq<Lexeme>)
    requires SoundStack(st) && NoLayout(xs)
    ensures Sound(Lexemes(st, xs))
    decreases |xs|
  {
    if xs != [] {
      OneLexemeKeeps(st, xs[0]);
      var step := OneLexeme(st, xs[0]);
      if step.Go? && !xs[0].Quote? {
        LexemesKeep(step.state, xs[1..]);
      }
    }
  }

  lemma {:induction false} RepeatedDedents(out: seq<Token>, n: nat)
    requires Nested(out) && Count(out, Indent) - Count(out, Dedent) == n
    ensures var all := out + Repeat(Token(Dedent, ""), n);
            Nested(all) && Count(all, Indent) == Count(all, Dedent) && Count(all, EndMarker) == Count(out, EndMarker)
    decreases n
  {
    var t := Token(Dedent, "");
    if n == 0 {
      assert out + Repeat(t, 0) == out;
    } else {
      NestedPush(out, t);
      CountPush(out, t, Dedent);
      CountPush(out, t, Indent);
      CountPush(out, t, EndMarker);
      RepeatedDedents(out + [t], n - 1);
      assert out + Repeat(t, n) == out + [t] + Repeat(t, n - 1);
    }
  }

  lemma {:induction false} EndKeeps(out: seq<Token>)
    requires Nested(out) && Count(out, Indent) == Count(out, Dedent) && Count(out, EndMarker) == 0
    ensures SoundStop(out + [Token(EndMarker, "")], Finished)
  {
    var end := Token(EndMarker, "");
    NestedPush(out, end);
    CountPush(out, end, Dedent);
    CountPush(out, end, Indent);
    CountPush(out, end, EndMarker);
  }

  lemma {:induction false} CloseKeeps(st: State)
    requires SoundStack(st)
    ensures Close(st).Stop? && Sound(Close(st))
  {
    hide Nested, Count, SoundStop;
    var line := Token(NewLine, "");
    var out := st.out + if LacksNewLine(st.lastLine) then [line] else [];
    assert SoundStack(st.(out := out)) by {
      PushKeeps(st, line);
      assert st.out + [] == st.out;
    }
    RepeatedDedents(out, |st.indents| - 1);
    EndKeeps(out + Repeat(Token(Dedent, ""), |st.indents| - 1));
  }

  lemma {:induction false} LineStepKeeps(st: State, line: Line)
    requires SoundStack(st) && LineWithoutLayout(line)
    ensures Sound(LineStep(st, line))
  {
    hide Close, SkippedTokens, Lexemes, Indentation, Balanced, SoundStop;
    var here := st.(lastLine := line.text);
    if st.open.Some? {
      if line.closing.Some? {
        var Closing(text, xs) := line.closing.value;
        var t := Token(String, st.open.value + text);
        PushKeeps(here, t);
        LexemesKeep(here.(open := None, needCont := false, out := st.out + [t]), xs);
      } else {
        PushKeeps(here, Token(ErrorMarker, st.open.value + line.text));
      }
    } else if st.level == 0 && !st.continued {
      if line.lexemes == [] {
        CloseKeeps(st);
      } else if Skipped(line.lexemes) {
        SkippedKeeps(here, line.lexemes);
      } else {
        IndentationKeeps(here, line.margin);
        var step := Indentation(here, line.margin);
        if step.Go? {
          LexemesKeep(step.state, line.lexemes);
        }
      }
    } else {
      LexemesKeep(here.(continued := false), line.lexemes);
    }
  }

  lemma {:induction false} SkippedKeeps(st: State, xs: seq<Lexeme>)
    requires SoundStack(st) && NoLayout(xs) && Skipped(xs)
    ensures SoundStack(st.(out := st.out + SkippedTokens(xs)))
  {
    hide Balanced;
    if xs[0].Break? {
      PushKeeps(st, Token(ContinuedNewLine, xs[0].text));
    } else {
      var a, b := xs[0].token, Token(ContinuedNewLine, if |xs| > 1 && xs[1].Break? then xs[1].text else "");
      PushTwoKeeps(st, a, b);
    }
  }

  /** The states in which a run starts its lines. */
  function Reached(st: State, lines: seq<Line>): seq<State>
    decreases |lines|
  {
    [st] +
    if lines == [] then []
    else
      match LineStep(st, lines[0])
      case Stop(_, _) => []
      case Go(next) => Reached(next, lines[1..])
  }

  /**
   Indentation in every run: in every state reached the stack rises strictly
   from 0 and is one longer than the blocks still open, no prefix of the output
   closes more blocks than it opens, and a run that emits the end marker has
   closed them all.
   */
  lemma {:induction false} RunKeepsIndentation(st: State, lines: seq<Line>)
    requires SoundStack(st) && forall i :: 0 <= i < |lines| ==> LineWithoutLayout(lines[i])
    ensures forall s :: s in Reached(st, lines) ==> SoundStack(s)
    ensures SoundStop(Run(st, lines).out, Run(st, lines).ending)
    decreases |lines|
  {
    hide LineStep, AtEnd;
    if lines == [] {
      AtEndKeeps(st);
    } else {
      LineStepKeeps(st, lines[0]);
      var step := LineStep(st, lines[0]);
      if step.Go? {
        RunKeepsIndentation(step.state, lines[1..]);
      }
    }
  }

  lemma {:induction false} StoppedShort(indents: seq<nat>, out: seq<Token>)
    requires Balanced(indents, out)
    ensures forall e: Ending :: !e.Finished? ==> SoundStop(out, e)
  {
  }

  lemma {:induction false} AtEndKeeps(st: State)
    requires SoundStack(st)
    ensures AtEnd(st).Stop? && Sound(AtEnd(st))
  {
    hide Balanced, SoundStop, Close;
    assert SoundStop(st.out, OpenString) && SoundStop(st.out, Endless) by {
      StoppedShort(st.indents, st.out);
    }
    CloseKeeps(st);
    CloseKeeps(st.(lastLine := ""));
  }

  lemma {:induction false} InitialIsSound()
    ensures SoundStack(Initial)
  {
  }

  lemma {:induction false} TokenizedIsSound(lines: seq<Line>)
    ensures (forall i :: 0 <= i < |lines| ==> LineWithoutLayout(lines[i])) ==>
              SoundStop(Run(Initial, lines).out, Run(Initial, lines).ending)
  {
    hide Run, SoundStack, SoundStop, LineWithoutLayout;
    if forall i :: 0 <= i < |lines| ==> LineWithoutLayout(lines[i]) {
      InitialIsSound();
      RunKeepsIndentation(Initial, lines);
    }
  }

  // The loops

  method MeasureMargin(margin: string) returns (column: nat)
    ensures column == Column(margin)
  {
    column := 0;
    var i := 0;
    while i < |margin|
      invariant i <= |margin| && column == Column(margin[..i])
    {
      assert margin[..i + 1][..i] == margin[..i];
      if margin[i] == '\t' {
        column := (column / TabSize + 1) * TabSize;
      } else if margin[i] == 12 as char {
        column := 0;
      } else {
        column := column + 1;
      }
      i := i + 1;
    }
    assert margin[..i] == margin;
  }

  method TrackIndentation(st: State, margin: string) returns (step: Step)
    ensures step == Indentation(st, margin)
  {
    var column := MeasureMargin(margin);
    var indents: seq<nat> := st.indents;
    var out := st.out;
    if column > Top(indents) {
      return Go(st.(indents := indents + [column], out := out + [Token(Indent, margin)]));
    }
    ghost var all := Dedents(st.indents, column);
    ghost var popped: seq<Token> := [];
    assert popped + all.1 == all.1;
    while column < Top(indents)
      invariant out == st.out + popped
      invariant all == (Dedents(indents, column).0, popped + Dedents(indents, column).1)
      decreases |indents|
    {
      if column !in indents {
        return Stop(out, BadIndent);
      }
      ghost var rest := Dedents(indents[..|indents| - 1], column).1;
      assert popped + ([Token(Dedent, "")] + rest) == popped + [Token(Dedent, "")] + rest;
      indents := indents[..|indents| - 1];
      out := out + [Token(Dedent, "")];
      popped := popped + [Token(Dedent, "")];
    }
    return Go(st.(indents := indents, out := out));
  }

  method ScanLexemes(st: State, xs: seq<Lexeme>) returns (step: Step)
    ensures step == Lexemes(st, xs)
  {
    hide OneLexeme;
    step := Go(st);
    var i := 0;
    while i < |xs|
      invariant i <= |xs| && step.Go? && Lexemes(step.state, xs[i..]) == Lexemes(st, xs)
    {
      var x := xs[i];
      assert xs[i..][0] == x && xs[i..][1..] == xs[i + 1..];
      step := OneLexeme(step.state, x);
      if step.Stop? || x.Quote? {
        return;
      }
      i := i + 1;
    }
  }

  method Tokenize(lines: seq<Line>) returns (out: seq<Token>, ending: Ending)
    ensures Stop(out, ending) == Run(Initial, lines)
    ensures (forall i :: 0 <= i < |lines| ==> LineWithoutLayout(lines[i])) ==> SoundStop(out, ending)
  {
    hide Lexemes, Indentation, SkippedTokens, Close, AtEnd, SoundStop, LineWithoutLayout;
    TokenizedIsSound(lines);
    var st := Initial;
    var i := 0;
    while i < |lines|
      invariant i <= |lines| && Run(st, lines[i..]) == Run(Initial, lines)
    {
      var line := lines[i];
      assert lines[i..][0] == line && lines[i..][1..] == lines[i + 1..];
      var here := st.(lastLine := line.text);
      var step := Go(here);
      if st.open.Some? {
        if line.closing.Some? {
          var text := st.open.value + line.closing.value.text;
          step := ScanLexemes(here.(open := None, needCont := false, out := st.out + [Token(String, text)]),
                              line.closing.value.lexemes);
        } else if st.needCont && !EndsWith(line.text, "\\\n") && !EndsWith(line.text, "\\\r\n") {
          step := Go(here.(open := None, out := st.out + [Token(ErrorMarker, st.open.value + line.text)]));
        } else {
          step := Go(here.(open := Some(st.open.value + line.text)));
        }
      } else if st.level == 0 && !st.continued {
        if line.lexemes == [] {
          step := Close(st);
        } else if Skipped(line.lexemes) {
          step := Go(here.(out := st.out + SkippedTokens(line.lexemes)));
        } else {
          step := TrackIndentation(here, line.margin);
          if step.Go? {
            step := ScanLexemes(step.state, line.lexemes);
          }
        }
      } else {
        step := ScanLexemes(here.(continued := false), line.lexemes);
      }
      assert step == LineStep(st, line);
      if step.Stop? {
        return step.out, step.ending;
      }
      st := step.state;
      i := i + 1;
    }
    assert lines[i..] == [];
    var last := AtEnd(st);
    assert Run(st, []) == last;
    out, ending := last.out, last.ending;
  }
}
