/**
 The bracket matchers of Compiler/Frontend/index.php, and `readGrammarAction` of
 GrammarTokenizer.php, which matches braces line by line.
 */
module Brackets {
  import opened Wrappers

  /** The symbol that closes `open`: itself, when it is not one of the four brackets. */
  function Closing(open: char): char {
    if open == '{' then '}' else if open == '(' then ')' else if open == '[' then ']'
    else if open == '<' then '>' else open
  }

  function Change(open: char, c: char): int {
    if c == open then 1 else if c == Closing(open) then -1 else 0
  }

  /** The first place where the level comes down to 0. */
  function FirstZero(open: char, s: string, level: int): (r: Option<nat>)
    ensures r.Some? ==> r.value < |s|
  {
    if s == "" then None
    else
      var next := level + Change(open, s[0]);
      if next == 0 then Some(0)
      else
        var r := FirstZero(open, s[1..], next);
        if r.Some? then Some(r.value + 1) else None
  }

  /** The offset of the pair of the symbol at `start`, or -1. */
  function Pair(text: string, start: nat): int {
    if start >= |text| then -1
    else
      var r := FirstZero(text[start], text[start + 1..], 1);
      if r.Some? then start + 1 + r.value else -1
  }

  /**
   `$text[$i]` counts a negative offset from the end, and a scan that begins there goes
   on with the start of the text: it is a scan of the text written twice.
   */
  function PairFromByte(text: string, start: int): int {
    if start < -|text| then -1
    else
      var r := Pair(text + text, |text| + start);
      if r == -1 then -1 else r - |text|
  }

  /** Where `mb_substr` begins: from the end for a negative offset, but not before the text. */
  function From(text: string, offset: int): (i: nat)
    ensures i <= |text|
  {
    if offset >= |text| then |text|
    else if offset >= 0 then offset
    else if |text| + offset > 0 then |text| + offset
    else 0
  }

  function PairFromChar(text: string, start: int): int {
    if From(text, start) == |text| then -1
    else
      var r := FirstZero(text[From(text, start)], text[From(text, start + 1)..], 1);
      if r.Some? then start + 1 + r.value else -1
  }

  /** For an offset into the text both give its pair. */
  lemma {:induction false} PairFromStart(text: string, start: nat)
    ensures PairFromByte(text, start) == Pair(text, start) == PairFromChar(text, start)
  {
    var twice := text + text;
    if start < |text| {
      assert twice[|text| + start] == text[start] && twice[|text| + start + 1..] == text[start + 1..];
    }
  }

  method FindByteOffsetOfPair(text: string, startOffset: int) returns (offset: int)
    ensures offset == PairFromByte(text, startOffset)
  {
    // Past either end the symbol is the empty string, which nothing closes.
    if startOffset >= |text| || startOffset < -|text| {
      return -1;
    }
    var openSymbol := if startOffset < 0 then text[|text| + startOffset] else text[startOffset];
    var closeSymbol := Closing(openSymbol);
    var level := 1;
    ghost var twice := text + text;
    assert twice[|text| + startOffset] == openSymbol;
    for i := startOffset + 1 to |text|
      invariant startOffset + 1 <= i <= |text|
      invariant PairFromByte(text, startOffset) ==
                var r := FirstZero(openSymbol, twice[|text| + i..], level);
                if r.Some? then i + r.value else -1
    {
      var c := if i < 0 then text[|text| + i] else text[i];
      assert twice[|text| + i..][0] == c && twice[|text| + i..][1..] == twice[|text| + i + 1..];
      if c == openSymbol {
        level := level + 1;
      } else if c == closeSymbol {
        level := level - 1;
      }
      if level == 0 {
        return i;
      }
    }
    return -1;
  }

  /** The same on characters instead of bytes; a start symbol of several characters is not supported. */
  method FindMultiByteOffsetOfPair(text: string, startSymbol: string, startOffset: int) returns (offset: Option<int>)
    ensures offset == if |startSymbol| > 1 then None else Some(PairFromChar(text, startOffset))
  {
    if |startSymbol| > 1 {
      return None;
    }
    if From(text, startOffset) == |text| {
      return Some(-1);
    }
    var openSymbol := text[From(text, startOffset)];
    var closeSymbol := Closing(openSymbol);
    var chars := text[From(text, startOffset + 1)..];
    var level := 1;
    var i := startOffset + 1;
    for j := 0 to |chars|
      invariant i == startOffset + 1 + j
      invariant PairFromChar(text, startOffset) ==
                var r := FirstZero(openSymbol, chars[j..], level);
                if r.Some? then i + r.value else -1
    {
      var c := chars[j];
      assert chars[j..][0] == c && chars[j..][1..] == chars[j + 1..];
      if c == openSymbol {
        level := level + 1;
      } else if c == closeSymbol {
        level := level - 1;
      }
      if level == 0 {
        return Some(i);
      }
      i := i + 1;
    }
    return Some(-1);
  }

  // Balanced text, by its grammar

  ghost predicate Balanced(open: char, s: string)
    decreases |s|
  {
    || s == ""
    || (s[0] != open && s[0] != Closing(open) && Balanced(open, s[1..]))
    || (s[0] == open && exists k :: 0 < k < |s| && Encloses(open, s, k))
  }

  // The first bracket closes at `k`.
  ghost predicate Encloses(open: char, s: string, k: nat)
    requires 0 < k < |s|
    decreases |s|, 0
  {
    s[k] == Closing(open) && Balanced(open, s[1..k]) && Balanced(open, s[k + 1..])
  }

  function Height(open: char, s: string): int {
    if s == "" then 0 else Change(open, s[0]) + Height(open, s[1..])
  }

  lemma {:induction false} HeightOfBoth(open: char, a: string, b: string)
    ensures Height(open, a + b) == Height(open, a) + Height(open, b)
  {
    if a == "" {
      assert a + b == b;
    } else {
      assert (a + b)[1..] == a[1..] + b;
      HeightOfBoth(open, a[1..], b);
    }
  }

  lemma {:induction false} HeightOfNext(open: char, s: string, i: nat)
    requires i < |s|
    ensures Height(open, s[..i + 1]) == Height(open, s[..i]) + Change(open, s[i])
  {
    assert s[..i + 1] == s[..i] + [s[i]] && [s[i]][1..] == "";
    HeightOfBoth(open, s[..i], [s[i]]);
  }

  /** What the scan finds, as a statement about heights. */
  lemma {:induction false} FirstZeroIs(open: char, s: string, level: int, k: nat)
    requires level > 0
    ensures FirstZero(open, s, level) == Some(k)
       <==> (&& k < |s| && level + Height(open, s[..k + 1]) == 0
             && forall i :: 0 <= i <= k ==> level + Height(open, s[..i]) > 0)
    decreases |s|
  {
    if s != "" {
      var c := Change(open, s[0]);
      assert s[..0] == "";
      HeightOfNext(open, s, 0);
      if level + c == 0 {
        if k > 0 && k < |s| {
          assert level + Height(open, s[..1]) == 0;
        }
      } else {
        var rest := s[1..];
        forall i | 0 <= i <= |rest| ensures Height(open, s[..i + 1]) == c + Height(open, rest[..i]) {
          assert s[..i + 1] == [s[0]] + rest[..i] && [s[0]][1..] == "";
          HeightOfBoth(open, [s[0]], rest[..i]);
        }
        if k > 0 {
          FirstZeroIs(open, rest, level + c, k - 1);
          if k < |s| && forall i :: 0 <= i <= k ==> level + Height(open, s[..i]) > 0 {
            forall i | 0 <= i <= k - 1 ensures level + c + Height(open, rest[..i]) > 0 {
              assert level + Height(open, s[..i + 1]) > 0;
            }
          }
          if FirstZero(open, s, level) == Some(k) {
            forall i | 0 <= i <= k ensures level + Height(open, s[..i]) > 0 {
              if i > 0 {
                assert level + c + Height(open, rest[..i - 1]) > 0;
              }
            }
          }
        }
      }
    }
  }

  /** Balanced text ends at the level it starts from and never goes below it. */
  lemma {:induction false} BalancedHeights(open: char, s: string, i: nat)
    requires open != Closing(open) && Balanced(open, s) && i <= |s|
    ensures Height(open, s) == 0 && Height(open, s[..i]) >= 0
    decreases |s|
  {
    if s != "" {
      assert s[..0] == "" && s[..|s|] == s;
      if s[0] != open {
        BalancedHeights(open, s[1..], if i > 0 then i - 1 else 0);
        assert i > 0 ==> s[..i] == [s[0]] + s[1..][..i - 1];
        HeightOfBoth(open, [s[0]], s[1..][..if i > 0 then i - 1 else 0]);
      } else {
        var k :| 0 < k < |s| && Encloses(open, s, k);
        EnclosedHeights(open, s, k, i);
      }
    }
  }

  lemma {:induction false} EnclosedHeights(open: char, s: string, k: nat, i: nat)
    requires open != Closing(open) && 0 < k < |s| && s[0] == open && Encloses(open, s, k) && i <= |s|
    ensures Height(open, s) == 0 && Height(open, s[..i]) >= 0
    decreases |s|, 0
  {
    var inner, rest := s[1..k], s[k + 1..];
    assert [s[0]][1..] == "" && [s[k]][1..] == "";
    assert s == [s[0]] + inner + [s[k]] + rest;
    HeightOfBoth(open, [s[0]], inner);
    HeightOfBoth(open, [s[0]] + inner, [s[k]]);
    HeightOfBoth(open, [s[0]] + inner + [s[k]], rest);
    var j := if i > k then i - k - 1 else 0;
    BalancedHeights(open, rest, j);
    BalancedHeights(open, inner, if 0 < i <= k then i - 1 else 0);
    if i > k {
      assert s[..i] == [s[0]] + inner + [s[k]] + rest[..j];
      HeightOfBoth(open, [s[0]] + inner + [s[k]], rest[..j]);
    } else if i > 0 {
      assert s[..i] == [s[0]] + inner[..i - 1];
      HeightOfBoth(open, [s[0]], inner[..i - 1]);
    } else {
      assert s[..i] == "";
    }
  }

  /** And text with such heights is balanced. */
  lemma {:induction false} HeightsBalanced(open: char, s: string)
    requires open != Closing(open) && Height(open, s) == 0 && NeverBelow(open, s)
    ensures Balanced(open, s)
    decreases |s|
  {
    if s != "" {
      HeightOfNext(open, s, 0);
      assert s[..0] == "" && Height(open, s[..1]) >= 0;
      var rest := s[1..];
      forall i | 0 <= i <= |rest| ensures Height(open, s[..i + 1]) == Change(open, s[0]) + Height(open, rest[..i]) {
        assert s[..i + 1] == [s[0]] + rest[..i] && [s[0]][1..] == "";
        HeightOfBoth(open, [s[0]], rest[..i]);
      }
      if s[0] != open {
        forall i | 0 <= i <= |rest| ensures Height(open, rest[..i]) >= 0 {
          assert Height(open, s[..i + 1]) >= 0;
        }
        HeightsBalanced(open, rest);
      } else {
        assert s[..|rest| + 1] == s && rest[..|rest|] == rest;
        var k := ComesDown(open, rest, 1);
        Parts(open, s, k);
        HeightsBalanced(open, rest[..k]);
        HeightsBalanced(open, rest[k + 1..]);
        assert s[1..k + 1] == rest[..k] && s[k + 2..] == rest[k + 1..];
        assert Encloses(open, s, k + 1);
      }
    }
  }

  /** A scan that ends at 0 or below it has met 0. */
  lemma {:induction false} ComesDown(open: char, s: string, level: int) returns (k: nat)
    requires level > 0 && level + Height(open, s) <= 0
    ensures FirstZero(open, s, level) == Some(k)
    decreases |s|
  {
    var next := level + Change(open, s[0]);
    if next == 0 {
      k := 0;
    } else {
      var j := ComesDown(open, s[1..], next);
      k := j + 1;
    }
  }

  predicate NeverBelow(open: char, s: string) {
    forall i :: 0 <= i <= |s| ==> Height(open, s[..i]) >= 0
  }

  /** Both the part up to the first zero and the part after it have good heights. */
  lemma {:induction false} Parts(open: char, s: string, k: nat)
    requires open != Closing(open) && s != "" && s[0] == open && Height(open, s) == 0 && NeverBelow(open, s)
    requires FirstZero(open, s[1..], 1) == Some(k)
    ensures k < |s[1..]| && s[k + 1] == Closing(open)
    ensures Height(open, s[1..][..k]) == 0 && NeverBelow(open, s[1..][..k])
    ensures Height(open, s[1..][k + 1..]) == 0 && NeverBelow(open, s[1..][k + 1..])
  {
    var rest := s[1..];
    var a, b := rest[..k], rest[k + 1..];
    FirstZeroIs(open, rest, 1, k);
    HeightOfNext(open, rest, k);
    assert [s[0]][1..] == "" && s[..k + 2] == [s[0]] + rest[..k + 1];
    HeightOfBoth(open, [s[0]], rest[..k + 1]);
    assert 1 + Height(open, rest[..k]) > 0;
    assert s == s[..k + 2] + b;
    HeightOfBoth(open, s[..k + 2], b);
    forall i | 0 <= i <= k ensures Height(open, a[..i]) >= 0 {
      assert a[..i] == rest[..i] && 1 + Height(open, rest[..i]) > 0;
    }
    forall i | 0 <= i <= |b| ensures Height(open, b[..i]) >= 0 {
      assert s[..k + 2 + i] == s[..k + 2] + b[..i];
      HeightOfBoth(open, s[..k + 2], b[..i]);
      assert Height(open, s[..k + 2 + i]) >= 0;
    }
  }

  /** The pair of a bracket is the closing bracket with balanced text before it. */
  lemma {:induction false} PairIs(text: string, start: nat, r: nat)
    requires start < |text| && text[start] != Closing(text[start])
    ensures Pair(text, start) == r
       <==> start < r < |text| && text[r] == Closing(text[start]) && Balanced(text[start], text[start + 1..r])
  {
    var open := text[start];
    var s := text[start + 1..];
    if start < r < |text| {
      var k := r - start - 1;
      assert s[..k] == text[start + 1..r] && s[k] == text[r];
      FirstZeroIs(open, s, 1, k);
      HeightOfNext(open, s, k);
      if Pair(text, start) == r {
        assert 1 + Height(open, s[..k]) > 0;
        forall i | 0 <= i <= |s[..k]| ensures Height(open, s[..k][..i]) >= 0 {
          assert s[..k][..i] == s[..i] && 1 + Height(open, s[..i]) > 0;
        }
        HeightsBalanced(open, s[..k]);
      }
      if text[r] == Closing(open) && Balanced(open, s[..k]) {
        forall i | 0 <= i <= k ensures 1 + Height(open, s[..i]) > 0 {
          assert s[..k][..i] == s[..i];
          BalancedHeights(open, s[..k], i);
        }
        BalancedHeights(open, s[..k], 0);
      }
    }
  }

  /** -1 means that no closing bracket has balanced text before it. */
  lemma {:induction false} NoPair(text: string, start: nat)
    requires start < |text| && text[start] != Closing(text[start])
    ensures Pair(text, start) == -1 <==> forall r :: start < r < |text| && text[r] == Closing(text[start]) ==>
              !Balanced(text[start], text[start + 1..r])
  {
    if Pair(text, start) != -1 {
      PairIs(text, start, Pair(text, start));
    } else {
      forall r | start < r < |text| && text[r] == Closing(text[start])
        ensures !Balanced(text[start], text[start + 1..r])
      {
        PairIs(text, start, r);
      }
    }
  }

  /** A symbol that is not a bracket only ever raises the level: it has no pair. */
  lemma {:induction false} OthersHaveNoPair(open: char, s: string, level: int)
    requires open == Closing(open) && level > 0
    ensures FirstZero(open, s, level).None?
    decreases |s|
  {
    if s != "" {
      OthersHaveNoPair(open, s[1..], level + Change(open, s[0]));
    }
  }

  // Line by line

  function Joined(lines: seq<string>): string {
    if lines == [] then "" else lines[0] + Joined(lines[1..])
  }

  /** Lines as `fgets` gives them: each but the last ends with a line feed. */
  predicate FileLines(lines: seq<string>) {
    forall i :: 0 <= i < |lines| - 1 ==> lines[i] != "" && lines[i][|lines[i]| - 1] == '\n'
  }

  datatype Action = Found(value: string, line: nat, offset: nat) | Unclosed

  lemma {:induction false} JoinedFrom(lines: seq<string>, k: nat)
    requires k < |lines|
    ensures Joined(lines[k..]) == lines[k] + Joined(lines[k + 1..])
  {
    assert lines[k..][0] == lines[k] && lines[k..][1..] == lines[k + 1..];
  }

  lemma {:induction false} JoinedBefore(lines: seq<string>, k: nat)
    requires k < |lines|
    ensures Joined(lines[..k + 1]) == Joined(lines[..k]) + lines[k]
    decreases k
  {
    var more := lines[..k + 1];
    assert more[0] == lines[0] && more[1..] == lines[1..][..k];
    if k > 0 {
      JoinedBefore(lines[1..], k - 1);
      assert lines[..k][1..] == lines[1..][..k - 1] && lines[..k][0] == lines[0];
      assert lines[0] + (Joined(lines[1..][..k - 1]) + lines[k]) == (lines[0] + Joined(lines[1..][..k - 1])) + lines[k];
    } else {
      assert lines[..0] == [] && more[1..] == [];
    }
  }

  /** The scan has `value` behind it and `rest` before it. */
  predicate Scanned(text: string, value: string, rest: string, level: int) {
    && level > 0 && text == value + rest
    && FirstZero('{', text, 1) ==
         var r := FirstZero('{', rest, level);
         if r.Some? then Some(|value| + r.value) else None
  }

  lemma {:induction false} ScanNext(text: string, value: string, rest: string, level: int)
    requires Scanned(text, value, rest, level) && rest != ""
    ensures var next := level + Change('{', rest[0]);
            if next == 0 then FirstZero('{', text, 1) == Some(|value|) && text[..|value|] == value
            else Scanned(text, value + [rest[0]], rest[1..], next)
  {
    assert rest == [rest[0]] + rest[1..];
    assert value + ([rest[0]] + rest[1..]) == (value + [rest[0]]) + rest[1..];
  }

  /** The value read so far ends in line `n`, before offset `at`. */
  predicate Placed(lines: seq<string>, first: string, value: string, n: nat, at: nat)
    requires n < |lines| && at <= |lines[n]|
  {
    Joined(lines[..n]) + lines[n][..at] == first + value
  }

  lemma {:induction false} PlaceNext(lines: seq<string>, first: string, value: string, n: nat, at: nat)
    requires n < |lines| && at < |lines[n]| && Placed(lines, first, value, n, at)
    ensures Placed(lines, first, value + [lines[n][at]], n, at + 1)
  {
    assert lines[n][..at + 1] == lines[n][..at] + [lines[n][at]];
    assert (first + value) + [lines[n][at]] == first + (value + [lines[n][at]]);
  }

  /**
   readGrammarAction, on the lines from the one that holds the opening brace; `offset` is
   after the brace. It finds what the matcher finds in the joined lines.
   */
  method ReadGrammarAction(lines: seq<string>, offset: nat) returns (action: Action)
    requires FileLines(lines) && lines != [] && 0 < offset <= |lines[0]| && lines[0][offset - 1] == '{'
    ensures var text := lines[0][offset..] + Joined(lines[1..]);
            var zero := FirstZero('{', text, 1);
            match action
            case Unclosed => zero.None?
            case Found(value, line, at) =>
              && zero.Some? && value == text[..zero.value]
              && line < |lines| && at < |lines[line]| && lines[line][at] == '}'
              && Joined(lines[..line]) + lines[line][..at] == lines[0][..offset] + value
  {
    hide FirstZero, Joined, Scanned, Placed;
    ghost var text := lines[0][offset..] + Joined(lines[1..]);
    ghost var first := lines[0][..offset];
    var braceLevel := 1;
    var value := "";
    var lineNum, at := 0, offset;
    Started(lines, offset);
    while true
      invariant lineNum < |lines| && at <= |lines[lineNum]| && braceLevel > 0
      invariant if lineNum == 0 then at == offset else at == 0
      invariant Placed(lines, first, value, lineNum, at)
      invariant Scanned(text, value, lines[lineNum][at..] + Joined(lines[lineNum + 1..]), braceLevel)
      decreases |lines| - lineNum
    {
      var line := lines[lineNum];
      var readLine := false;
      ghost var tail := Joined(lines[lineNum + 1..]);
      ghost var start := at;
      while at < |line|
        invariant start <= at <= |line| && braceLevel > 0
        invariant Placed(lines, first, value, lineNum, at)
        invariant Scanned(text, value, line[at..] + tail, braceLevel)
        invariant readLine <==> exists i :: start <= i < at && (line[i] == '\r' || line[i] == '\n')
      {
        var c := line[at];
        assert (line[at..] + tail)[0] == c && (line[at..] + tail)[1..] == line[at + 1..] + tail;
        ScanNext(text, value, line[at..] + tail, braceLevel);
        PlaceNext(lines, first, value, lineNum, at);
        if c == '{' {
          braceLevel := braceLevel + 1;
        } else if c == '}' {
          braceLevel := braceLevel - 1;
          if braceLevel == 0 {
            PlaceMeans(lines, first, value, lineNum, at);
            return Found(value, lineNum, at);
          }
        } else if c == '\r' || c == '\n' {
          readLine := true;
        }
        value := value + [c];
        at := at + 1;
      }
      LineEnds(lines, lineNum, start, text, value, braceLevel);
      if !readLine || lineNum + 1 == |lines| {
        return Unclosed;
      }
      NextLine(lines, first, value, lineNum, text, braceLevel);
      lineNum, at := lineNum + 1, 0;
    }
  }

  lemma {:induction false} Started(lines: seq<string>, offset: nat)
    requires lines != [] && offset <= |lines[0]|
    ensures Placed(lines, lines[0][..offset], "", 0, offset)
    ensures Scanned(lines[0][offset..] + Joined(lines[1..]), "", lines[0][offset..] + Joined(lines[1..]), 1)
  {
    assert lines[..0] == [] && Joined(lines[..0]) == "";
    assert lines[0][..offset] + "" == lines[0][..offset] && "" + lines[0][..offset] == lines[0][..offset];
  }

  lemma {:induction false} PlaceMeans(lines: seq<string>, first: string, value: string, n: nat, at: nat)
    requires n < |lines| && at <= |lines[n]| && Placed(lines, first, value, n, at)
    ensures Joined(lines[..n]) + lines[n][..at] == first + value
  {
  }

  /** Without a line break to the end of the line, the line is the last one. */
  lemma {:induction false} LineEnds(lines: seq<string>, n: nat, start: nat, text: string, value: string, level: int)
    requires FileLines(lines) && n < |lines| && start <= |lines[n]|
    requires n + 1 < |lines| ==> start < |lines[n]| || (start > 0 && lines[n][start - 1] == '{') || start == 0
    requires Scanned(text, value, lines[n][|lines[n]|..] + Joined(lines[n + 1..]), level)
    ensures n + 1 == |lines| ==> FirstZero('{', text, 1) == None
    ensures n + 1 < |lines| ==> exists i :: start <= i < |lines[n]| && lines[n][i] == '\n'
  {
    if n + 1 == |lines| {
      assert lines[n + 1..] == [] && lines[n][|lines[n]|..] == "";
      assert lines[n][|lines[n]|..] + Joined(lines[n + 1..]) == "";
    } else {
      assert lines[n][|lines[n]| - 1] == '\n';
    }
  }

  lemma {:induction false} NextLine(lines: seq<string>, first: string, value: string, n: nat, text: string, level: int)
    requires n + 1 < |lines| && Placed(lines, first, value, n, |lines[n]|)
    requires Scanned(text, value, lines[n][|lines[n]|..] + Joined(lines[n + 1..]), level)
    ensures Placed(lines, first, value, n + 1, 0)
    ensures Scanned(text, value, lines[n + 1][0..] + Joined(lines[n + 2..]), level)
  {
    JoinedBefore(lines, n);
    JoinedFrom(lines, n + 1);
    assert lines[n][..|lines[n]|] == lines[n] && lines[n + 1][..0] == "";
    assert Joined(lines[..n + 1]) + "" == Joined(lines[..n + 1]);
    assert lines[n][|lines[n]|..] + Joined(lines[n + 1..]) == Joined(lines[n + 1..]);
    assert lines[n + 1][0..] == lines[n + 1];
  }
}
