/**
 The offsets of GrammarTokenizer: `preg_match` gives and takes them in bytes of
 UTF-8, while the length of a match, the length of a line and the text of a token
 are counted in characters. On ASCII text the two agree, and there what was
 printed is read back. Beyond ASCII the scan loses its place.
 */
module GrammarOffsets {
  import opened Wrappers
  import opened GrammarTree
  import opened GrammarDescent
  import opened GrammarPrinter
  import opened GrammarTokenizer
  import opened GrammarRoundTrip
  import opened GrammarText

  /** The bytes of a character in UTF-8. */
  function Width(c: char): (n: nat)
    ensures 0 < n <= 4
  {
    if c as int < 0x80 then 1 else if c as int < 0x800 then 2 else if c as int < 0x10000 then 3 else 4
  }

  predicate Ascii(s: string) {
    forall i :: 0 <= i < |s| ==> s[i] as int < 0x80
  }

  /** The index of the character that begins at the byte; None inside a character. */
  function IndexAt(s: string, byte: nat): (r: Option<nat>)
    ensures r.Some? ==> r.value <= |s|
  {
    if byte == 0 then Some(0)
    else if s == "" || byte < Width(s[0]) then None
    else
      var r := IndexAt(s[1..], byte - Width(s[0]));
      if r.Some? then Some(r.value + 1) else None
  }

  /**
   How long a match of the expression for tokens is, 0 without a match; None for
   what `Scan` leaves out.
   */
  function MatchLength(s: string): (n: Option<nat>)
    requires s != ""
  {
    if s[0] == '\n' then Some(1)
    else if IsWordChar(s[0]) then
      var n := WordLength(s);
      if '0' <= s[0] <= '9' || (n < |s| && IsQuote(s[n])) then None else Some(n)
    else if IsQuote(s[0]) then
      var n := LiteralEnd(s, 1, s[0]);
      if (n == 2 && |s| > 2 && s[2] == s[0]) || (n == 0 && '\\' in s) then None else Some(n)
    else if s[0] == '$' then Some(0)
    else
      var n := OperatorLength(s);
      if n == 0 || s[0] == '{' then None else Some(n)
  }

  /** The lexeme that the text of a token is taken for, by its first character. */
  function LexemeOf(v: string): Option<Lexeme>
    requires v != ""
  {
    if v[0] == '\n' then Some(Break(v))
    else if !('0' <= v[0] <= '9') && forall i :: 0 <= i < |v| ==> IsWordChar(v[i]) then Some(Simple(Token(Name, v)))
    else if IsQuote(v[0]) && v[|v| - 1] != '\n' then Some(Simple(Token(String, v)))
    else if OperatorLength(v) == |v| && v[0] != '{' then Some(Simple(Token(Op, v)))
    else None
  }

  function Before(x: Lexeme, rest: Option<seq<Lexeme>>): Option<seq<Lexeme>> {
    if rest.Some? then Some([x] + rest.value) else None
  }

  /**
   The loop over a line from an offset. It ends where the offset reaches the number
   of characters; the expression is matched at the byte of the offset, and the text
   of the token taken at the character of it.
   */
  function ScanFrom(line: string, offset: nat): Option<seq<Lexeme>>
    decreases |line| - offset
  {
    if offset >= |line| then Some([])
    else
      var i := IndexAt(line, offset);
      if i.None? || i.value == |line| then None
      else
        var s := line[i.value..];
        var n := MatchLength(s);
        if IsBlank(s[0]) then ScanFrom(line, offset + 1)
        else if n.None? || offset + n.value > |line| then None
        // No match gives one byte, here that of an ASCII character.
        else if n.value == 0 then Before(Simple(Token(ErrorMarker, [s[0]])), ScanFrom(line, offset + 1))
        else
          var x := LexemeOf(line[offset..offset + n.value]);
          if x.None? then None else Before(x.value, ScanFrom(line, offset + n.value))
  }

  function ReadLine(text: string): Option<Line> {
    var n := MarginLength(text);
    var xs := ScanFrom(text, n);
    if xs.Some? then Some(Line(text, text[..n], xs.value, None)) else None
  }

  /** The lines of a text as the tokenizer scans them. */
  function ReadLines(text: string): Option<seq<Line>>
    decreases |text|
  {
    if text == "" then Some([])
    else
      var n := LineLength(text);
      var first, rest := ReadLine(text[..n]), ReadLines(text[n..]);
      if first.Some? && rest.Some? then Some([first.value] + rest.value) else None
  }

  // Offsets in ASCII text

  lemma {:induction false} IndexInAscii(s: string, i: nat)
    requires i <= |s| && Ascii(s)
    ensures IndexAt(s, i) == Some(i)
  {
    if i > 0 {
      assert s[0] as int < 0x80;
      assert forall k :: 0 <= k < |s[1..]| ==> s[1..][k] == s[k + 1];
      IndexInAscii(s[1..], i - 1);
    }
  }

  lemma {:induction false} WordIsOfWordChars(s: string)
    ensures WordLength(s) <= |s| && forall i :: 0 <= i < WordLength(s) ==> IsWordChar(s[i])
    ensures s != "" && IsWordChar(s[0]) ==> WordLength(s) > 0
  {
    if s != "" && IsWordChar(s[0]) {
      WordIsOfWordChars(s[1..]);
      assert forall i :: 0 < i < WordLength(s) ==> s[i] == s[1..][i - 1];
    }
  }

  lemma {:induction false} LiteralEndsInQuote(s: string, i: nat, quote: char)
    ensures var n := LiteralEnd(s, i, quote); n != 0 ==> i < n <= |s| && s[n - 1] == quote
    decreases |s| - i
  {
    if i < |s| && s[i] != '\\' && s[i] != '\n' && s[i] != quote {
      LiteralEndsInQuote(s, i + 1, quote);
    }
  }

  lemma {:induction false} OperatorIsWhole(s: string)
    ensures var n := OperatorLength(s); n <= |s| && (n > 0 ==> OperatorLength(s[..n]) == n)
  {
    var n := OperatorLength(s);
    if n > 0 {
      var v := s[..n];
      assert n == 3 ==> v[..3] == v;
      assert n == 2 ==> v[..2] == v;
    }
  }

  lemma {:induction false} OperatorStart(s: string)
    requires OperatorLength(s) > 0
    ensures s != "" && s[0] != '\n' && !IsWordChar(s[0]) && !IsQuote(s[0]) && !IsBlank(s[0]) && s[0] != '$'
  {
    if |s| >= 2 && s[..2] in Operators2 {
      assert s[..2][0] == s[0];
    }
    if |s| >= 3 && s[..3] in Operators3 {
      assert s[..3][0] == s[0];
    }
  }

  /** One step of the scan of characters, as a match and the lexeme of its text. */
  lemma {:induction false} ScanByMatch(s: string)
    requires Scan(s).Some? && s != "" && !IsBlank(s[0])
    ensures MatchLength(s).Some?
    ensures var n := MatchLength(s).value;
            && n <= |s|
            && (n == 0 ==> Scan(s) == Before(Simple(Token(ErrorMarker, [s[0]])), Scan(s[1..])))
            && (n > 0 ==> LexemeOf(s[..n]).Some? && Scan(s) == Before(LexemeOf(s[..n]).value, Scan(s[n..])))
  {
    var n := MatchLength(s);
    if s[0] == '\n' {
      assert s[..1] == "\n";
    } else if IsWordChar(s[0]) {
      WordIsOfWordChars(s);
      assert forall i :: 0 <= i < n.value ==> s[..n.value][i] == s[i];
    } else if IsQuote(s[0]) {
      LiteralEndsInQuote(s, 1, s[0]);
      var v := s[..n.value];
      assert v[0] == s[0] && v[|v| - 1] == s[0];
    } else if s[0] == '$' {
      assert [s[0]] == "$";
    } else {
      OperatorIsWhole(s);
      OperatorStart(s);
      assert s[..n.value][0] == s[0];
    }
  }

  lemma {:induction false} ScanSkipsBlanks(s: string)
    ensures s == "" ==> Scan(s) == Some([])
    ensures s != "" && IsBlank(s[0]) ==> Scan(s) == Scan(s[1..])
  {
  }

  /** One step of the loop, at an offset where a character begins. */
  lemma {:induction false} ScanFromStep(line: string, offset: nat)
    requires offset < |line| && IndexAt(line, offset) == Some(offset)
    ensures IsBlank(line[offset]) ==> ScanFrom(line, offset) == ScanFrom(line, offset + 1)
    ensures var n := MatchLength(line[offset..]);
            !IsBlank(line[offset]) && n.Some? && offset + n.value <= |line| ==>
              && (n.value == 0 ==>
                    ScanFrom(line, offset)
                    == Before(Simple(Token(ErrorMarker, [line[offset]])), ScanFrom(line, offset + 1)))
              && (n.value > 0 && LexemeOf(line[offset..offset + n.value]).Some? ==>
                    ScanFrom(line, offset)
                    == Before(LexemeOf(line[offset..offset + n.value]).value, ScanFrom(line, offset + n.value)))
  {
    hide IndexAt, MatchLength, LexemeOf, Before, IsBlank;
    assert line[offset..][0] == line[offset];
  }

  /** On ASCII text the offsets are those of characters. */
  lemma {:induction false} ScanFromIsScan(line: string, offset: nat)
    requires Ascii(line) && offset <= |line| && Scan(line[offset..]).Some?
    ensures ScanFrom(line, offset) == Scan(line[offset..])
    decreases |line| - offset
  {
    hide Ascii, LexemeOf, MatchLength, Scan, ScanFrom, IsBlank, IndexAt;
    var s := line[offset..];
    ScanSkipsBlanks(s);
    if offset == |line| {
      assert s == "";
      ScanFromEnd(line);
    } else {
      IndexInAscii(line, offset);
      ScanFromStep(line, offset);
      assert s[0] == line[offset] && s[1..] == line[offset + 1..];
      if IsBlank(s[0]) {
        ScanFromIsScan(line, offset + 1);
      } else {
        ScanByMatch(s);
        var n := MatchLength(s).value;
        assert s[..n] == line[offset..offset + n] && s[n..] == line[offset + n..];
        if n == 0 {
          ScanFromIsScan(line, offset + 1);
        } else {
          ScanFromIsScan(line, offset + n);
        }
      }
    }
  }

  lemma {:induction false} ScanFromEnd(line: string)
    ensures ScanFrom(line, |line|) == Some([])
  {
  }

  lemma {:induction false} ReadLinesAreLines(text: string)
    requires Ascii(text) && LinesOf(text).Some?
    ensures ReadLines(text) == LinesOf(text)
    decreases |text|
  {
    hide Scan, ScanFrom;
    if text != "" {
      var n := LineLength(text);
      var line := text[..n];
      assert Ascii(line) && Ascii(text[n..]);
      ScanFromIsScan(line, MarginLength(line));
      ReadLinesAreLines(text[n..]);
    }
  }

  lemma {:induction false} PrintedTokens(g: Grammar)
    requires CanonicalGrammar(g) && Ascii(TextOfGrammar(g))
    ensures var lines := ReadLines(TextOfGrammar(g));
            && lines.Some? && Run(Initial, lines.value) == Stop(GrammarTokens(g), Finished)
            && Visible(GrammarTokens(g)) == GrammarTokens(g)
  {
    hide CanonicalGrammar, TextOfGrammar, GrammarTokens, Run, Visible, ReadLines, LinesOf, Ascii;
    TokensOfText(g);
    ReadLinesAreLines(TextOfGrammar(g));
  }

  /**
   Printing, then tokenizing, then parsing gives the grammar back, for every
   canonical grammar in ASCII but those with the clash, for which the parser fails.
   */
  lemma {:induction false} ReadingUndoesPrinting(g: Grammar)
    requires CanonicalGrammar(g) && Ascii(TextOfGrammar(g))
    ensures var lines := ReadLines(TextOfGrammar(g));
            lines.Some?
            && var run := Run(Initial, lines.value);
               run.ending == Finished
               && Start(Visible(run.out), 0) == if Clash(Values(g.rules)) then Fail else Ok(g, |Visible(run.out)|)
  {
    hide Start, ReadLines, Run, Visible, GrammarTokens, Clash, CanonicalGrammar, TextOfGrammar, Ascii;
    PrintedTokens(g);
    ParsingUndoesPrinting(g);
  }

  // A literal with a character of two bytes

  function ByteLength(s: string): nat {
    if s == "" then 0 else Width(s[0]) + ByteLength(s[1..])
  }

  lemma {:induction false} ByteLengthConcat(a: string, b: string)
    ensures ByteLength(a + b) == ByteLength(a) + ByteLength(b)
  {
    if a == "" {
      assert a + b == b;
    } else {
      ByteLengthConcat(a[1..], b);
      assert (a + b)[1..] == a[1..] + b;
    }
  }

  lemma {:induction false} ByteLengthOfAscii(s: string)
    requires Ascii(s)
    ensures ByteLength(s) == |s|
  {
    if s != "" {
      assert forall i :: 0 <= i < |s[1..]| ==> s[1..][i] == s[i + 1];
      ByteLengthOfAscii(s[1..]);
    }
  }

  lemma {:induction false} IndexAfter(a: string, b: string)
    ensures IndexAt(a + b, ByteLength(a)) == Some(|a|)
  {
    if a != "" {
      IndexAfter(a[1..], b);
      assert (a + b)[1..] == a[1..] + b;
    }
  }

  lemma {:induction false} WordsAreAscii(s: string)
    requires Identifier(s)
    ensures Ascii(s)
  {
    assert forall i :: 0 <= i < |s| ==> s[i] in s;
  }

  /** The literal takes one byte more than it has characters. */
  predicate OneByteMore(v: string) {
    Literal(v) && ByteLength(v) == |v| + 1
  }

  function RuleOfLiteral(name: string, v: string): Rule {
    Rule(name, None, Rhs([Alt([NamedItem(None, StringLeaf(v), None)], None)]))
  }

  function GrammarOfLiteral(name: string, v: string): Grammar {
    Grammar([(name, RuleOfLiteral(name, v))], [])
  }

  lemma {:induction false} TextOfLiteral(name: string, v: string)
    requires OneLine(RuleOfLiteral(name, v))
    ensures TextOfGrammar(GrammarOfLiteral(name, v)) == name + (":" + (" " + (v + "\n")))
  {
    var r := RuleOfLiteral(name, v);
    var a := r.rhs.alts[0];
    var g := GrammarOfLiteral(name, v);
    assert Values(g.rules) == [r];
    assert a.items[1..] == [];
    assert NamedItemText(a.items[0]) == v && Core([]) == "";
    assert Core(a.items) == " " + v + "";
    assert AltText(a) == v && AltsText(r.rhs.alts) == v;
    assert RuleLines(r) == [name + ": " + v];
    assert RuleText(r) == name + ": " + v;
    assert [r][1..] == [];
    assert RulesText([r]) == RuleText(r) + "\n" + "";
    assert name + ": " + v + "\n" == name + (":" + (" " + (v + "\n")));
  }

  lemma {:induction false} ScanOfWord(name: string, rest: string)
    requires Identifier(name) && rest != "" && rest[0] == ':'
    ensures ScanFrom(name + rest, 0) == Before(Simple(Token(Name, name)), ScanFrom(name + rest, |name|))
  {
    hide ScanFrom, LexemeOf, MatchLength, Before;
    var line := name + rest;
    WordMatch(name, rest);
    assert line[0..] == line && line[0..0 + |name|] == name;
    assert line[0] == name[0] && name[0] in name;
    ScanFromStep(line, 0);
  }

  lemma {:induction false} ScanOfColon(pre: string, rest: string)
    requires Ascii(pre) && rest != "" && rest[0] == ' '
    ensures ScanFrom(pre + (":" + rest), |pre|)
         == Before(Simple(Punct(":")), ScanFrom(pre + (":" + rest), |pre| + 2))
  {
    hide ScanFrom, IndexAt, LexemeOf, MatchLength, Before, Ascii;
    var line, n := pre + (":" + rest), |pre|;
    ByteLengthOfAscii(pre);
    IndexAfter(pre, ":" + rest);
    assert line[n..] == [':'] + rest && line[n..n + 1] == ":" && line[n] == ':';
    ColonMatch(rest);
    ScanFromStep(line, n);
    ByteLengthConcat(pre, ":");
    ByteLengthOfOne(':');
    assert line == (pre + ":") + rest && line[n + 1] == ' ';
    IndexAfter(pre + ":", rest);
    ScanFromStep(line, n + 1);
  }

  /** The name and the colon: up to there all characters are of one byte. */
  lemma {:induction false} ScanOfHead(name: string, rest: string)
    requires Identifier(name) && rest != "" && rest[0] == ' '
    ensures var line := name + (":" + rest);
            ScanFrom(line, 0)
            == Before(Simple(Token(Name, name)), Before(Simple(Punct(":")), ScanFrom(line, |name| + 2)))
  {
    hide ScanFrom, Before, Ascii, Identifier;
    WordsAreAscii(name);
    ScanOfWord(name, ":" + rest);
    ScanOfColon(name, rest);
  }

  lemma {:induction false} WordMatch(v: string, rest: string)
    requires Identifier(v) && (rest == "" || (!IsWordChar(rest[0]) && !IsQuote(rest[0])))
    ensures MatchLength(v + rest) == Some(|v|) && LexemeOf(v) == Some(Simple(Token(Name, v)))
  {
    WordLengthIs(v, rest);
    assert v[0] in v && (v + rest)[0] == v[0];
    assert forall i :: 0 <= i < |v| ==> v[i] in v;
  }

  lemma {:induction false} ColonMatch(rest: string)
    requires rest != "" && rest[0] == ' '
    ensures MatchLength([':'] + rest) == Some(1) && LexemeOf(":") == Some(Simple(Punct(":")))
  {
    OperatorAlone(':', rest);
    OperatorAlone(':', "");
    assert [':'] + "" == ":" && ":"[0] == ':';
  }

  lemma {:induction false} LiteralMatch(v: string)
    requires Literal(v) && |v| > 2
    ensures MatchLength(v + "\n") == Some(|v|) && LexemeOf(v) == Some(Simple(Token(String, v)))
  {
    LiteralEndIs(v, "\n", 1);
    assert (v + "\n")[0] == v[0];
    assert !IsWordChar(v[0]);
  }

  lemma {:induction false} OpenQuoteMatch(q: char)
    requires IsQuote(q)
    ensures MatchLength([q] + "\n") == Some(0) && !IsBlank(q)
  {
    var s := [q] + "\n";
    assert s[0] == q && s[1] == '\n' && |s| == 2;
    assert LiteralEnd(s, 1, q) == 0;
    assert '\\' !in s;
  }

  lemma {:induction false} EmptyLiteral(v: string)
    requires Literal(v) && |v| == 2
    ensures ByteLength(v) == 2
  {
    assert v == [v[0]] + [v[1]];
    ByteLengthConcat([v[0]], [v[1]]);
    ByteLengthOfOne(v[0]);
    ByteLengthOfOne(v[1]);
  }

  lemma {:induction false} WideLiteralIsLong(v: string)
    requires OneByteMore(v)
    ensures |v| > 2
  {
    hide ByteLength;
    if |v| == 2 {
      EmptyLiteral(v);
    }
  }

  /** The literal is found; the scan goes on at its closing quote, and stops before the line feed. */
  lemma {:induction false} ScanOfLiteral(pre: string, v: string)
    requires Ascii(pre) && OneByteMore(v)
    ensures ScanFrom(pre + (v + "\n"), |pre|)
         == Some([Simple(Token(String, v)), Simple(Token(ErrorMarker, [v[0]]))])
  {
    hide ScanFrom, IndexAt, LexemeOf, MatchLength, Literal, Ascii, ByteLength;
    var line := pre + (v + "\n");
    WideLiteralIsLong(v);
    QuotesOfLiteral(v);
    var n, q := |v|, v[|v| - 1];
    ByteLengthOfAscii(pre);
    IndexAfter(pre, v + "\n");
    assert line[|pre|..] == v + "\n" && line[|pre|..|pre| + n] == v;
    assert line[|pre|] == v[0];
    LiteralMatch(v);
    ScanFromStep(line, |pre|);
    var body := pre + v[..n - 1];
    assert v == v[..n - 1] + [q];
    ByteLengthConcat(v[..n - 1], [q]);
    ByteLengthOfOne(q);
    ByteLengthConcat(pre, v[..n - 1]);
    assert ByteLength(body) == |pre| + n;
    assert line == body + ([q] + "\n");
    IndexAfter(body, [q] + "\n");
    OpenQuoteMatch(q);
    assert line[|pre| + n - 1..] == [q] + "\n";
    ScanOfQuote(line, |pre| + n, q);
    var a, b := Simple(Token(String, v)), Simple(Token(ErrorMarker, [v[0]]));
    assert [a] + [b] == [a, b];
  }

  lemma {:induction false} ByteLengthOfOne(c: char)
    ensures ByteLength([c]) == Width(c)
  {
    assert [c][1..] == "";
  }

  lemma {:induction false} QuotesOfLiteral(v: string)
    requires Literal(v)
    ensures |v| > 1 && IsQuote(v[0]) && v[|v| - 1] == v[0] && !IsBlank(v[0]) && Width(v[0]) == 1
  {
  }

  lemma {:induction false} ScanOfQuote(line: string, offset: nat, q: char)
    requires |line| == offset + 1 && offset > 0 && IndexAt(line, offset) == Some(offset - 1)
    requires line[offset - 1..] == [q] + "\n" && MatchLength([q] + "\n") == Some(0) && !IsBlank(q)
    ensures ScanFrom(line, offset) == Some([Simple(Token(ErrorMarker, [q]))])
  {
    hide IndexAt, MatchLength;
    assert ([q] + "\n")[0] == q;
    assert ScanFrom(line, offset + 1) == Some([]);
    assert [Simple(Token(ErrorMarker, [q]))] + [] == [Simple(Token(ErrorMarker, [q]))];
  }

  function BrokenTokens(name: string, v: string): seq<Token>
    requires v != ""
  {
    [Token(Name, name), Punct(":"), Token(String, v), Token(ErrorMarker, [v[0]])]
  }

  lemma {:induction false} FirstLexeme(st: State, t: Token, rest: seq<Lexeme>)
    ensures Lexemes(st, [Simple(t)] + rest)
         == Lexemes(st.(level := st.level + LevelChange(t), out := st.out + [t]), rest)
  {
    hide LevelChange;
    assert ([Simple(t)] + rest)[1..] == rest;
  }

  lemma {:induction false} LexemesWithoutEnd(st: State, ts: seq<Token>)
    ensures Lexemes(st, Plains(ts)) == Go(st.(level := st.level + Depth(ts), out := st.out + ts))
    decreases |ts|
  {
    hide OneLexeme, LevelChange;
    if ts == [] {
      assert st.out + [] == st.out;
    } else {
      var next := st.(level := st.level + LevelChange(ts[0]), out := st.out + [ts[0]]);
      FirstLexeme(st, ts[0], Plains(ts[1..]));
      LexemesWithoutEnd(next, ts[1..]);
      assert st.out + [ts[0]] + ts[1..] == st.out + ts;
    }
  }

  lemma {:induction false} OneMoreVisible(t: Token, rest: seq<Token>)
    requires Passes(t)
    ensures Visible([t] + rest) == [t] + Visible(rest)
  {
    assert ([t] + rest)[1..] == rest;
  }

  lemma {:induction false} NothingVisible()
    ensures Visible([]) == []
  {
  }

  lemma {:induction false} BrokenIsVisible(name: string, v: string)
    requires OneByteMore(v)
    ensures var all := BrokenTokens(name, v) + [Token(EndMarker, "")]; Visible(all) == all
  {
    hide Visible, Literal, ByteLength;
    QuotesOfLiteral(v);
    var a, b, c, d := Token(Name, name), Punct(":"), Token(String, v), Token(ErrorMarker, [v[0]]);
    var end := Token(EndMarker, "");
    assert Passes(d) by {
      assert d.value[0] == v[0];
    }
    NothingVisible();
    OneMoreVisible(end, []);
    OneMoreVisible(d, [end]);
    OneMoreVisible(c, [d] + [end]);
    OneMoreVisible(b, [c] + ([d] + [end]));
    OneMoreVisible(a, [b] + ([c] + ([d] + [end])));
    assert [end] + [] == [end];
    assert BrokenTokens(name, v) + [end] == [a] + ([b] + ([c] + ([d] + [end])));
  }

  lemma {:induction false} PlainsOfBroken(name: string, v: string)
    requires OneByteMore(v)
    ensures var ts := BrokenTokens(name, v);
            && Depth(ts) == 0
            && Some(Plains(ts)) == Before(Simple(ts[0]), Before(Simple(ts[1]), Some([Simple(ts[2]), Simple(ts[3])])))
  {
    hide Depth, Plains;
    var ts := BrokenTokens(name, v);
    var a, b, c, d := ts[0], ts[1], ts[2], ts[3];
    assert ts == [a] + ([b] + ([c] + [d]));
    DepthConcat([a], [b] + ([c] + [d]));
    DepthConcat([b], [c] + [d]);
    DepthConcat([c], [d]);
    DepthOne(a);
    DepthOne(b);
    DepthOne(c);
    DepthOne(d);
    PlainsConcat([a], [b] + ([c] + [d]));
    PlainsConcat([b], [c] + [d]);
    PlainsConcat([c], [d]);
    PlainsOfOne(a);
    PlainsOfOne(b);
    PlainsOfOne(c);
    PlainsOfOne(d);
    assert [Simple(c)] + [Simple(d)] == [Simple(c), Simple(d)];
  }

  lemma {:induction false} PlainsOfOne(t: Token)
    ensures Plains([t]) == [Simple(t)]
  {
    assert [t][1..] == [];
  }

  lemma {:induction false} AtTheMargin(st: State)
    requires st.indents == [0]
    ensures Indentation(st, "") == Go(st)
  {
    assert Column("") == 0 && Dedents([0], 0) == (Some([0]), []);
    assert st.out + [] == st.out;
  }

  /** One line of such a rule, and with it the whole text, is scanned without its line feed. */
  lemma {:induction false} RunOfLiteral(name: string, v: string)
    requires Identifier(name) && OneByteMore(v)
    ensures var text := name + (":" + (" " + (v + "\n")));
            var ts := BrokenTokens(name, v);
            && ReadLine(text) == Some(Line(text, "", Plains(ts), None))
            && LineStep(Initial, Line(text, "", Plains(ts), None))
               == Go(Initial.(lastLine := text, out := ts))
  {
    hide ScanFrom, Plains, Depth, Visible, Passes, Lexemes, Indentation;
    var text := name + (":" + (" " + (v + "\n")));
    var ts := BrokenTokens(name, v);
    ScanOfHead(name, " " + (v + "\n"));
    WordsAreAscii(name);
    assert text == name + ": " + (v + "\n");
    assert Ascii(name + ": ");
    ScanOfLiteral(name + ": ", v);
    PlainsOfBroken(name, v);
    assert text[0] == name[0] && name[0] in name;
    assert MarginLength(text) == 0 && text[..0] == "";
    var here := Initial.(lastLine := text);
    AtTheMargin(here);
    LexemesWithoutEnd(here, ts);
    assert [] + ts == ts;
  }

  lemma {:induction false} ReadOneLine(text: string)
    requires text != "" && text[|text| - 1] == '\n' && (forall i :: 0 <= i < |text| - 1 ==> text[i] != '\n')
    ensures ReadLines(text) == if ReadLine(text).Some? then Some([ReadLine(text).value]) else None
  {
    hide ReadLine;
    LineLengthIs(text[..|text| - 1], "");
    assert text[..|text| - 1] + "\n" + "" == text;
    assert text[..|text|] == text && text[|text|..] == "";
    assert LineLength(text) == |text| && ReadLines("") == Some([]);
    if ReadLine(text).Some? {
      assert [ReadLine(text).value] + [] == [ReadLine(text).value];
    }
  }

  lemma {:induction false} NoGrammarInBroken(name: string, v: string)
    requires Identifier(name) && OneByteMore(v)
    ensures Start(BrokenTokens(name, v) + [Token(EndMarker, "")], 0).Fail?
  {
    hide RuleAt, Literal, ByteLength, GrammarAt;
    QuotesOfLiteral(v);
    var ts := BrokenTokens(name, v) + [Token(EndMarker, "")];
    assert v[0] != 'N' && v[0] != 'D' && "NewLine"[0] == 'N' && "Dedent"[0] == 'D';
    assert [v[0]][0] == v[0];
    assert !ClosesRule(ts, 2) && !ClosesRule(ts, 3) && !ClosesRule(ts, 4);
    RuleEnds(ts, 0);
    assert name[0] in name && name != "@";
    NoGrammarWithoutRule(ts);
  }

  lemma {:induction false} NoGrammarWithoutRule(ts: Tokens)
    requires ts != [] && ts[0].value != "@" && ts[0].kind == Name && RuleAt(ts, 0).Fail?
    ensures GrammarAt(ts, 0).Fail?
  {
    hide RuleAt;
    assert Metas(ts, 0).Fail?;
  }

  /**
   A literal with one character of two bytes, the rest of one, breaks the round trip:
   its closing quote is scanned again, as an error, and the line feed is not reached.
   Without a NewLine token the parser finds no rule.
   */
  lemma {:induction false} WideLiteralIsLost(name: string, v: string)
    requires Identifier(name) && OneByteMore(v) && OneLine(RuleOfLiteral(name, v))
    ensures var g := GrammarOfLiteral(name, v);
            var lines := ReadLines(TextOfGrammar(g));
            && CanonicalGrammar(g) && lines.Some?
            && Run(Initial, lines.value) == Stop(BrokenTokens(name, v) + [Token(EndMarker, "")], Finished)
            && Start(Visible(Run(Initial, lines.value).out), 0).Fail?
  {
    hide ReadLine, OneLine, LineStep, Visible, Start, ByteLength, TextOfGrammar, ReadLines;
    var text := name + (":" + (" " + (v + "\n")));
    var ts := BrokenTokens(name, v);
    LiteralIsCanonical(name, v);
    TextOfLiteral(name, v);
    RunOfLiteral(name, v);
    OneLineOfLiteral(name, v);
    ReadOneLine(text);
    var line := Line(text, "", Plains(ts), None);
    var st := Initial.(lastLine := text, out := ts);
    assert [line][1..] == [];
    assert Run(Initial, [line]) == AtEnd(st);
    EndOfBroken(st);
    BrokenIsVisible(name, v);
    NoGrammarInBroken(name, v);
  }

  lemma {:induction false} LiteralIsCanonical(name: string, v: string)
    requires Identifier(name) && Literal(v)
    ensures CanonicalGrammar(GrammarOfLiteral(name, v))
  {
    hide Literal, Identifier;
    var n := NamedItem(None, StringLeaf(v), None);
    assert CanonicalNamedItem(n);
    assert CanonicalAlt(Alt([n], None));
  }

  lemma {:induction false} OneLineOfLiteral(name: string, v: string)
    requires Identifier(name) && Literal(v)
    ensures var text := name + (":" + (" " + (v + "\n")));
            && text != "" && text[|text| - 1] == '\n' && (forall i :: 0 <= i < |text| - 1 ==> text[i] != '\n')
  {
    assert forall i :: 0 <= i < |name| ==> name[i] in name;
    assert forall i :: 0 <= i < |v| ==> v[i] != '\n';
    var text := name + (":" + (" " + (v + "\n")));
    assert text == (name + ": " + v) + "\n";
  }

  lemma {:induction false} EndOfBroken(st: State)
    requires st.indents == [0] && st.level == 0 && !st.continued && st.open.None? && !LacksNewLine(st.lastLine)
    ensures AtEnd(st) == Stop(st.out + [Token(EndMarker, "")], Finished)
  {
    assert Repeat(Token(Dedent, ""), 0) == [];
    assert st.out + [] + [] == st.out;
  }

  /** So `a: 'é'`, with the letter written as its code, is not read back. */
  lemma {:induction false} AccentIsLost()
    ensures var g := GrammarOfLiteral("a", "'\U{00E9}'");
            && CanonicalGrammar(g) && ReadLines(TextOfGrammar(g)).Some?
            && Start(Visible(Run(Initial, ReadLines(TextOfGrammar(g)).value).out), 0).Fail?
  {
    hide ReadLines, TextOfGrammar, Start, Visible, Run, CanonicalGrammar;
    var v := "'\U{00E9}'";
    assert v == "'" + ("\U{00E9}" + "'");
    ByteLengthConcat("'", "\U{00E9}" + "'");
    ByteLengthConcat("\U{00E9}", "'");
    ByteLengthOfOne('\'');
    ByteLengthOfOne('\U{00E9}');
    assert OneByteMore(v);
    assert "a"[0] == 'a' && Identifier("a");
    OneLineIsShort("a", v);
    WideLiteralIsLost("a", v);
  }

  lemma {:induction false} OneLineIsShort(name: string, v: string)
    requires |name| + |v| < 80
    ensures OneLine(RuleOfLiteral(name, v))
  {
    var r := RuleOfLiteral(name, v);
    var a := r.rhs.alts[0];
    assert a.items[1..] == [] && Core([]) == "" && NamedItemText(a.items[0]) == v;
    assert Core(a.items) == " " + v + "";
    assert AltText(a) == v && AltsText(r.rhs.alts) == v;
  }
}
