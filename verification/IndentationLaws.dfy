/**
 How the grammar tokenizer finds blocks: which column a margin reaches, what a line
 does to the indentation stack, how lines and strings go on, and how a run ends.
 */
module IndentationLaws {
  import opened Wrappers
  import opened GrammarTree
  import opened GrammarTokenizer
  import opened TokenizerLaws

  // Columns

  predicate IsBlank(c: char) {
    c != '\t' && c != 12 as char
  }

  /** Blanks count one column each. */
  lemma {:induction false} BlanksCount(margin: string, blanks: string)
    requires forall c :: c in blanks ==> IsBlank(c)
    ensures Column(margin + blanks) == Column(margin) + |blanks|
    decreases |blanks|
  {
    var n := |blanks| - 1;
    if blanks == "" {
      assert margin + blanks == margin;
    } else {
      BlanksCount(margin, blanks[..n]);
      assert (margin + blanks)[..|margin + blanks| - 1] == margin + blanks[..n];
      assert blanks[n] in blanks;
    }
  }

  /** A tab goes to the next column that is a multiple of 4. */
  lemma {:induction false} TabStops(margin: string)
    ensures Column(margin + "\t") % 4 == 0
    ensures Column(margin) < Column(margin + "\t") <= Column(margin) + 4
  {
    assert (margin + "\t")[..|margin|] == margin;
  }

  /** A form feed starts over. */
  lemma {:induction false} FormFeedStartsOver(margin: string, rest: string)
    ensures Column(margin + [12 as char] + rest) == Column(rest)
    decreases |rest|
  {
    var all, n := margin + [12 as char] + rest, |rest| - 1;
    if rest == "" {
      assert all[..|all| - 1] == margin;
    } else {
      FormFeedStartsOver(margin, rest[..n]);
      assert all[..|all| - 1] == margin + [12 as char] + rest[..n];
    }
  }

  // The stack

  /** The columns of the stack below the given one. */
  function Below(indents: seq<nat>, column: nat): seq<nat> {
    if indents == [] || indents[|indents| - 1] < column then indents else Below(indents[..|indents| - 1], column)
  }

  lemma {:induction false} BelowIs(indents: seq<nat>, column: nat)
    requires Increasing(indents)
    ensures Below(indents, column) <= indents
    ensures forall c :: c in Below(indents, column) <==> c in indents && c < column
  {
    if indents != [] && indents[|indents| - 1] >= column {
      BelowIs(indents[..|indents| - 1], column);
      assert indents == indents[..|indents| - 1] + [indents[|indents| - 1]];
    }
  }

  /** Dedents take the stack down to the column, with one token for each level. */
  lemma {:induction false} DedentsFind(indents: seq<nat>, column: nat)
    requires Increasing(indents) && column in indents
    ensures Dedents(indents, column).0 == Some(Below(indents, column) + [column])
    ensures |Below(indents, column)| < |indents|
    ensures Dedents(indents, column).1 == Repeat(Token(Dedent, ""), |indents| - |Below(indents, column)| - 1)
  {
    var n := |indents| - 1;
    assert indents == indents[..n] + [indents[n]];
    if column < Top(indents) {
      DedentsFind(indents[..n], column);
      assert Below(indents, column) == Below(indents[..n], column);
    } else {
      assert column == indents[n] by {
        var i :| 0 <= i < |indents| && indents[i] == column;
      }
      BelowTop(indents, column);
    }
  }

  lemma {:induction false} BelowTop(indents: seq<nat>, column: nat)
    requires Increasing(indents) && indents != [] && indents[|indents| - 1] == column
    ensures Below(indents, column) == indents[..|indents| - 1]
  {
    var below := indents[..|indents| - 1];
    assert below != [] ==> below[|below| - 1] < column;
  }

  lemma {:induction false} BelowAbove(indents: seq<nat>, column: nat)
    requires column > Top(indents)
    ensures Below(indents, column) == indents
  {
  }

  /** What a new statement at the column adds to the output. */
  function Layout(indents: seq<nat>, margin: string): seq<Token> {
    var column := Column(margin);
    if column > Top(indents) then [Token(Indent, margin)]
    else
      var n := |Below(indents, column)| + 1;
      if n > |indents| then [] else Repeat(Token(Dedent, ""), |indents| - n)
  }

  /**
   A statement is on the level of its column: the levels above are closed, one is opened where
   the column is beyond all, and a column between two levels is an error.
   */
  lemma {:induction false} IndentationFinds(st: State, margin: string)
    requires SoundStack(st)
    ensures Indentation(st, margin).Go? <==> Column(margin) in st.indents || Column(margin) > Top(st.indents)
    ensures Indentation(st, margin).Go? ==>
              Indentation(st, margin).state
              == st.(indents := Below(st.indents, Column(margin)) + [Column(margin)],
                     out := st.out + Layout(st.indents, margin))
    ensures Indentation(st, margin).Stop? ==> Indentation(st, margin).ending == BadIndent
  {
    hide Nested, Count;
    var column := Column(margin);
    hide Column;
    DedentsKeep(st, column);
    if column > Top(st.indents) {
      BelowAbove(st.indents, column);
    } else if column in st.indents {
      DedentsFind(st.indents, column);
    }
  }

  // Lines

  /** The line starts a statement: it is not inside one, and has more than a comment. */
  predicate Starts(st: State, line: Line) {
    st.open.None? && st.level == 0 && !st.continued && line.lexemes != [] && !Skipped(line.lexemes)
  }

  /** Only lines that start a statement touch the stack. */
  lemma {:induction false} LexemesKeepTheStack(st: State, xs: seq<Lexeme>)
    requires Lexemes(st, xs).Go?
    ensures var next := Lexemes(st, xs).state;
            next.indents == st.indents && next.lastLine == st.lastLine && st.out <= next.out
    ensures NoLayout(xs) ==>
              forall k :: |st.out| <= k < |Lexemes(st, xs).state.out| ==> !IsLayout(Lexemes(st, xs).state.out[k])
    decreases |xs|
  {
    if xs != [] && !xs[0].Quote? {
      LexemesKeepTheStack(OneLexeme(st, xs[0]).state, xs[1..]);
    }
  }

  predicate NoLayoutFrom(out: seq<Token>, n: nat) {
    forall k :: n <= k < |out| ==> !IsLayout(out[k])
  }

  lemma {:induction false} LexemesAddNoLayout(st: State, xs: seq<Lexeme>, n: nat)
    requires Lexemes(st, xs).Go? && NoLayout(xs) && n <= |st.out| && NoLayoutFrom(st.out, n)
    ensures var next := Lexemes(st, xs).state;
            next.indents == st.indents && next.lastLine == st.lastLine && st.out <= next.out
            && NoLayoutFrom(next.out, n)
  {
    hide Lexemes;
    LexemesKeepTheStack(st, xs);
  }

  /** A line that starts a statement is on the level of its column; no other line opens or closes a block. */
  lemma {:induction false} LineStepFinds(st: State, line: Line)
    requires SoundStack(st) && LineWithoutLayout(line) && LineStep(st, line).Go?
    ensures var next, column := LineStep(st, line).state, Column(line.margin);
            var before := st.out + if Starts(st, line) then Layout(st.indents, line.margin) else [];
            && next.lastLine == line.text && before <= next.out && NoLayoutFrom(next.out, |before|)
            && next.indents == if Starts(st, line) then Below(st.indents, column) + [column] else st.indents
  {
    hide Lexemes, Indentation, Column, Below, Layout, SoundStack, NoLayout, Close;
    var here := st.(lastLine := line.text);
    assert SoundStack(here) by {
      SameStack(st, here);
    }
    assert st.out + [] == st.out;
    if st.open.Some? {
      if line.closing.Some? {
        var Closing(text, xs) := line.closing.value;
        var out := st.out + [Token(String, st.open.value + text)];
        LexemesAddNoLayout(here.(open := None, needCont := false, out := out), xs, |st.out|);
      }
    } else if st.level == 0 && !st.continued {
      if Skipped(line.lexemes) {
        SkippedAddNoLayout(st.out, line.lexemes);
      } else if line.lexemes != [] {
        IndentationFinds(here, line.margin);
        var next := Indentation(here, line.margin).state;
        LexemesAddNoLayout(next, line.lexemes, |next.out|);
      } else {
        CloseStops(st);
      }
    } else {
      LexemesAddNoLayout(here.(continued := false), line.lexemes, |st.out|);
    }
  }

  lemma {:induction false} CloseStops(st: State)
    ensures Close(st).Stop?
  {
  }

  lemma {:induction false} SameStack(st: State, next: State)
    requires SoundStack(st) && next.indents == st.indents && next.out == st.out
    ensures SoundStack(next)
  {
  }

  lemma {:induction false} SkippedAddNoLayout(out: seq<Token>, xs: seq<Lexeme>)
    requires Skipped(xs) && NoLayout(xs)
    ensures NoLayoutFrom(out + SkippedTokens(xs), |out|)
  {
  }

  // Statements that go on

  /** The next line goes on with the statement exactly where a backslash ends this one. */
  lemma {:induction false} LexemesGoOn(st: State, xs: seq<Lexeme>)
    requires Lexemes(st, xs).Go? && Calm(xs)
    ensures Lexemes(st, xs).state.continued <==> st.continued || Backslash in xs
    decreases |xs|
  {
    hide OneLexeme;
    if xs != [] {
      OneGoesOn(st, xs[0]);
      LexemesGoOn(OneLexeme(st, xs[0]).state, xs[1..]);
      assert xs == [xs[0]] + xs[1..];
    }
  }

  lemma {:induction false} OneGoesOn(st: State, x: Lexeme)
    requires OneLexeme(st, x).Go?
    ensures OneLexeme(st, x).state.continued <==> st.continued || x.Backslash?
  {
  }

  lemma {:induction false} LineGoesOn(st: State, line: Line)
    requires st.open.None? && Calm(line.lexemes) && LineStep(st, line).Go?
    requires line.lexemes != [] && line.lexemes[0].Break? ==> |line.lexemes| == 1
    ensures LineStep(st, line).state.continued <==> Backslash in line.lexemes
  {
    hide Lexemes, Indentation, SkippedTokens, Close;
    var here, xs := st.(lastLine := line.text), line.lexemes;
    if st.level == 0 && !st.continued {
      if Skipped(xs) {
        OnlyTheBreak(xs);
      } else if xs != [] && Indentation(here, line.margin).Go? {
        IndentationGoesOn(here, line.margin);
        LexemesGoOn(Indentation(here, line.margin).state, xs);
      } else {
        CloseStops(st);
      }
    } else {
      LexemesGoOn(here.(continued := false), xs);
    }
  }

  lemma {:induction false} OnlyTheBreak(xs: seq<Lexeme>)
    requires Skipped(xs) && Calm(xs) && (xs[0].Break? ==> |xs| == 1)
    ensures Backslash !in xs
  {
    assert xs[0].Simple? ==> |xs| <= 2;
    forall x | x in xs ensures x != Backslash {
      var i :| 0 <= i < |xs| && xs[i] == x;
      assert i == 0 || i == 1;
    }
  }

  lemma {:induction false} IndentationGoesOn(st: State, margin: string)
    requires Indentation(st, margin).Go?
    ensures Indentation(st, margin).state.continued == st.continued
  {
    hide Column, Dedents;
  }

  // Strings that go on

  /** The line leaves the string open: one in single quotes only with a backslash before its end. */
  predicate LeavesOpen(st: State, line: Line) {
    line.closing.None? && (st.needCont ==> EndsWith(line.text, "\\\n") || EndsWith(line.text, "\\\r\n"))
  }

  /** An open string takes the lines that leave it open. */
  lemma {:induction false} StringGoesOn(st: State, lines: seq<Line>)
    requires st.open.Some? && forall i :: 0 <= i < |lines| ==> LeavesOpen(st, lines[i])
    ensures |Reached(st, lines)| == |lines| + 1 && Run(st, lines) == Stop(st.out, OpenString)
    ensures var end := Reached(st, lines)[|lines|];
            end.open == Some(st.open.value + TextOf(lines)) && end.out == st.out && end.needCont == st.needCont
    decreases |lines|
  {
    hide LineStep, Close, Reached, Run;
    if lines != [] {
      TakesLine(st, lines[0]);
      FirstLine(st, lines);
      StringGoesOn(LineStep(st, lines[0]).state, lines[1..]);
      var s := st.open.value;
      assert s + lines[0].text + TextOf(lines[1..]) == s + TextOf(lines);
    } else {
      NoLines(st);
      assert st.open.value + "" == st.open.value;
    }
  }

  lemma {:induction false} TakesLine(st: State, line: Line)
    requires st.open.Some? && LeavesOpen(st, line)
    ensures LineStep(st, line) == Go(st.(lastLine := line.text, open := Some(st.open.value + line.text)))
  {
  }

  /** A line that neither closes it nor leaves it open turns all of the string into an error. */
  lemma {:induction false} StringIsGivenUp(st: State, line: Line)
    requires st.open.Some? && line.closing.None? && !LeavesOpen(st, line)
    ensures LineStep(st, line).Go?
    ensures var next := LineStep(st, line).state;
            next.open.None? && next.out == st.out + [Token(ErrorMarker, st.open.value + line.text)] && next.needCont
  {
  }

  /** From then on a string in triple quotes is an error on its second line, too, unless a backslash ends that. */
  lemma {:induction false} ThenTripleQuotesFail(st: State, text: string, line: Line)
    requires st.needCont && st.open.None? && line.closing.None?
    requires !EndsWith(line.text, "\\\n") && !EndsWith(line.text, "\\\r\n")
    ensures var quoted := Lexemes(st, [Quote(text, true)]);
            && quoted.Go? && LineStep(quoted.state, line).Go?
            && LineStep(quoted.state, line).state.out == st.out + [Token(ErrorMarker, text + line.text)]
  {
  }

  // The end

  /**
   A run through all its lines that ends outside strings and brackets ends its last line, unless that
   ended itself, was a comment or had a backslash, closes its blocks and emits the end marker.
   */
  lemma {:induction false} EndOfRun(st: State, lines: seq<Line>)
    requires SoundStack(st) && forall i :: 0 <= i < |lines| ==> LineWithoutLayout(lines[i])
    requires lines != [] && |Reached(st, lines)| == |lines| + 1
    ensures var last, text := Reached(st, lines)[|lines|], lines[|lines| - 1].text;
            && last.lastLine == text && last.indents != []
            && (last.open.None? && last.level == 0 ==>
                  Run(st, lines)
                  == Stop(last.out
                          + (if !last.continued && LacksNewLine(text) then [Token(NewLine, "")] else [])
                          + Repeat(Token(Dedent, ""), |last.indents| - 1) + [Token(EndMarker, "")], Finished))
    decreases |lines|
  {
    hide LineStep, Reached, Run, SoundStack, LineWithoutLayout, LacksNewLine;
    var step := LineStep(st, lines[0]);
    if step.Stop? {
      StoppedAtOnce(st, lines);
    } else {
      FirstLine(st, lines);
      LineStepKeeps(st, lines[0]);
      LineStepFinds(st, lines[0]);
      if |lines| == 1 {
        assert lines[1..] == [];
        NoLines(step.state);
        StackIsNotEmpty(step.state);
        NothingLacksNothing();
      } else {
        EndOfRun(step.state, lines[1..]);
      }
    }
  }

  lemma {:induction false} NothingLacksNothing()
    ensures !LacksNewLine("")
  {
  }

  lemma {:induction false} StackIsNotEmpty(st: State)
    requires SoundStack(st)
    ensures st.indents != []
  {
  }
}
