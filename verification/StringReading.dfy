/**
 AsciiStringReader.php: a scanner over a string. Where a regular expression matches is
 given with each step; the register keeps the text of the last match.
 */
module StringReading {
  import opened Wrappers

  datatype State = State(input: string, offset: nat, prevOffset: nat, matched: Option<string>)

  // A match of preg_match from the current offset: where it starts and ends.
  datatype Hit = Hit(from: nat, to: nat)

  datatype Op =
    | Scan(hit: Option<Hit>, advance: bool)
    | ScanUntil(hit: Option<Hit>, advance: bool)
    | Char
    | Unread
    | Terminate
    | Reset
    | Concat(more: string)
    | SetInput(text: string)

  function Start(input: string): State {
    State(input, 0, 0, None)
  }

  /** What preg_match may give: with the modifier A the match starts at the offset. */
  predicate Possible(s: State, anchored: bool, op: Op) {
    match op
    case Scan(Some(h), _) => s.offset <= h.from <= h.to <= |s.input| && (anchored ==> h.from == s.offset)
    case ScanUntil(Some(h), _) => s.offset <= h.from <= h.to <= |s.input|
    case _ => true
  }

  predicate InBounds(s: State) {
    s.prevOffset <= s.offset <= |s.input|
  }

  function Step(s: State, op: Op): (end: State)
    requires InBounds(s) && Possible(s, false, op)
    ensures InBounds(end)
  {
    match op
    case Scan(None, _) => s.(matched := None)
    case Scan(Some(h), advance) =>
      var text := s.input[h.from..h.to];
      if advance then State(s.input, s.offset + |text|, s.offset, Some(text)) else s.(matched := Some(text))
    case ScanUntil(None, _) => s.(matched := None)
    case ScanUntil(Some(h), advance) =>
      var text := s.input[s.offset..h.from];
      if advance then State(s.input, s.offset + |text|, s.offset, Some(text)) else s.(matched := Some(text))
    case Char =>
      if s.offset >= |s.input| then s.(matched := None)
      else State(s.input, s.offset + 1, s.offset, Some([s.input[s.offset]]))
    // Without a match this is an exception and changes nothing.
    case Unread => if s.matched.None? then s else s.(matched := None, offset := s.prevOffset)
    case Terminate => s.(matched := None, offset := |s.input|)
    case Reset => Start(s.input)
    case Concat(more) => s.(input := s.input + more)
    case SetInput(text) => Start(text)
  }

  function PreMatch(s: State): Option<string>
    requires InBounds(s)
  {
    if s.matched.None? then None else Some(s.input[..s.prevOffset])
  }

  function PostMatch(s: State): Option<string>
    requires InBounds(s)
  {
    if s.matched.None? then None else Some(s.input[s.offset..])
  }

  class StringReader {
    const anchored: bool
    var input: string
    var offset: nat
    var prevOffset: nat
    var matched: Option<string>

    constructor (input: string, anchored: bool)
      ensures this.anchored == anchored && Now() == Start(input)
    {
      this.input, this.anchored := input, anchored;
      offset, prevOffset, matched := 0, 0, None;
    }

    function Now(): State
      reads this
    {
      State(input, offset, prevOffset, matched)
    }

    /** read and look, with the text or only its length for the caller */
    method DoScan(hit: Option<Hit>, advance: bool) returns (text: Option<string>)
      requires InBounds(Now()) && Possible(Now(), anchored, Scan(hit, advance))
      modifies this
      ensures Now() == Step(old(Now()), Scan(hit, advance)) && text == matched && InBounds(Now())
    {
      text := None;
      if hit.Some? {
        text := Some(input[hit.value.from..hit.value.to]);
        if advance {
          prevOffset := offset;
          offset := offset + |text.value|;
        }
      }
      matched := text;
    }

    method DoScanUntil(hit: Option<Hit>, advance: bool) returns (text: Option<string>)
      requires InBounds(Now()) && Possible(Now(), anchored, ScanUntil(hit, advance))
      modifies this
      ensures Now() == Step(old(Now()), ScanUntil(hit, advance)) && text == matched && InBounds(Now())
    {
      if hit.Some? {
        var res := input[offset..hit.value.from];
        matched := Some(res);
        if advance {
          prevOffset := offset;
          offset := offset + |res|;
        }
        return Some(res);
      }
      matched := None;
      return None;
    }

    method DoChar() returns (text: Option<string>)
      requires InBounds(Now())
      modifies this
      ensures Now() == Step(old(Now()), Char) && text == matched && InBounds(Now())
    {
      matched := None;
      if offset >= |input| {
        return None;
      }
      prevOffset := offset;
      var c := [input[offset]];
      offset := offset + |c|;
      matched := Some(c);
      return matched;
    }

    method DoUnread() returns (ok: bool)
      requires InBounds(Now())
      modifies this
      ensures Now() == Step(old(Now()), Unread) && ok == old(matched).Some? && InBounds(Now())
    {
      if matched.None? {
        return false;
      }
      matched := None;
      offset := prevOffset;
      return true;
    }

    method DoTerminate()
      requires InBounds(Now())
      modifies this
      ensures Now() == Step(old(Now()), Terminate) && InBounds(Now())
    {
      matched := None;
      offset := |input|;
    }

    method DoReset()
      modifies this
      ensures Now() == Start(old(input)) && InBounds(Now())
    {
      matched := None;
      offset, prevOffset := 0, 0;
    }

    method DoConcat(more: string)
      requires InBounds(Now())
      modifies this
      ensures Now() == Step(old(Now()), Concat(more)) && InBounds(Now())
    {
      input := input + more;
    }

    method DoSetInput(text: string)
      modifies this
      ensures Now() == Start(text) && InBounds(Now())
    {
      input := text;
      DoReset();
    }
  }

  // Whole runs

  /** Each step is possible where it is taken. */
  predicate PossibleRun(s: State, anchored: bool, ops: seq<Op>)
    requires InBounds(s)
    decreases |ops|
  {
    ops == [] || (Possible(s, anchored, ops[0]) && PossibleRun(Step(s, ops[0]), anchored, ops[1..]))
  }

  function Run(s: State, anchored: bool, ops: seq<Op>): State
    requires InBounds(s) && PossibleRun(s, anchored, ops)
    decreases |ops|
  {
    if ops == [] then s else Run(Step(s, ops[0]), anchored, ops[1..])
  }

  /**
   Every run keeps 0 <= prevOffset <= offset <= length, whatever the expressions match,
   in the state after each of its steps.
   */
  lemma {:induction false} RunsStayInBounds(s: State, anchored: bool, ops: seq<Op>, n: nat)
    requires InBounds(s) && PossibleRun(s, anchored, ops) && n <= |ops|
    ensures PossibleRun(s, anchored, ops[..n]) && InBounds(Run(s, anchored, ops[..n]))
    ensures n > 0 ==>
              var before := ops[..n - 1];
              && PossibleRun(s, anchored, before) && InBounds(Run(s, anchored, before))
              && Possible(Run(s, anchored, before), anchored, ops[n - 1])
              && Run(s, anchored, ops[..n]) == Step(Run(s, anchored, before), ops[n - 1])
    decreases n
  {
    hide Step;
    if n > 0 {
      var next := Step(s, ops[0]);
      assert ops[..n][0] == ops[0] && ops[..n][1..] == ops[1..][..n - 1];
      RunsStayInBounds(next, anchored, ops[1..], n - 1);
      if n > 1 {
        assert ops[..n - 1][0] == ops[0] && ops[..n - 1][1..] == ops[1..][..n - 2];
      }
    }
  }

  // What a step gives, by what the expression matched

  /** A read or a look gives what the expression matched; only a read moves, and past as much. */
  lemma {:induction false} ScanGivesTheHit(s: State, h: Hit)
    requires InBounds(s) && Possible(s, false, Scan(Some(h), true))
    ensures var read, look := Step(s, Scan(Some(h), true)), Step(s, Scan(Some(h), false));
            && read.matched == look.matched == Some(s.input[h.from..h.to])
            && read.input == look.input == s.input
            && read.prevOffset == s.offset && read.offset - s.offset == h.to - h.from
            && look.prevOffset == s.prevOffset && look.offset == s.offset
            && (h.from == s.offset ==> PostMatch(read) == Some(s.input[h.to..]))
  {
  }

  /**
   `readUntil` stops before what the expression matched: that is where the rest begins, and
   reading it next succeeds even when the match must start at the offset. `lookUntil` gives
   the same text and stays.
   */
  lemma {:induction false} UntilStopsBeforeTheHit(s: State, h: Hit)
    requires InBounds(s) && Possible(s, false, ScanUntil(Some(h), true))
    ensures var read, look := Step(s, ScanUntil(Some(h), true)), Step(s, ScanUntil(Some(h), false));
            var next := Scan(Some(h), true);
            && read.offset == h.from && read.prevOffset == s.offset
            && PostMatch(read) == Some(s.input[h.from..]) && s.input[h.from..h.to] <= PostMatch(read).value
            && Possible(read, true, next) && Step(read, next).matched == Some(s.input[h.from..h.to])
            && Step(read, next).offset == h.to
            && look.matched == read.matched == Some(s.input[s.offset..h.from])
            && look.offset == s.offset && look.prevOffset == s.prevOffset
  {
    assert s.input[h.from..][..h.to - h.from] == s.input[h.from..h.to];
  }

  /** Without a match nothing moves and nothing is kept. */
  lemma {:induction false} NoHitKeepsThePlace(s: State, advance: bool)
    requires InBounds(s)
    ensures Step(s, Scan(None, advance)) == Step(s, ScanUntil(None, advance)) == s.(matched := None)
    ensures PreMatch(Step(s, Scan(None, advance))) == PostMatch(Step(s, Scan(None, advance))) == None
  {
  }

  /** Reading character by character gives the text from the offset on, and then none. */
  lemma {:induction false} CharsReadTheRest(s: State, n: nat)
    requires InBounds(s) && s.offset + n <= |s.input|
    ensures PossibleRun(s, true, seq(n, _ => Char))
    ensures var end := Run(s, true, seq(n, _ => Char));
            && end.input == s.input && end.offset == s.offset + n
            && (n > 0 ==> end.matched == Some([s.input[end.offset - 1]]) && end.prevOffset == end.offset - 1)
            && (end.offset == |s.input| ==> Step(end, Char) == end.(matched := None))
    decreases n
  {
    var ops := seq(n, _ => Char);
    if n > 0 {
      assert ops[1..] == seq(n - 1, _ => Char);
      CharsReadTheRest(Step(s, Char), n - 1);
    }
  }

  /** After any run, `reset` and giving the same text again leave the same reader at the start of it. */
  lemma {:induction false} ResetStartsOver(s: State)
    requires InBounds(s)
    ensures var end := Step(s, Reset);
            && end == Step(s, SetInput(s.input)) && end.input[end.offset..] == s.input
            && end.matched == None && end.prevOffset == end.offset == 0
  {
  }

  /** After `terminate` only text that is appended can still be read. */
  lemma {:induction false} TerminateSkipsTheRest(s: State, more: string)
    requires InBounds(s)
    ensures var end := Step(Step(s, Terminate), Concat(more));
            end.input == s.input + more && end.input[end.offset..] == more && end.matched == None
  {
  }

  /** What is appended follows what was left, and a match stays. */
  lemma {:induction false} ConcatAddsToTheRest(s: State, more: string)
    requires InBounds(s)
    ensures var end := Step(s, Concat(more));
            && end.input[end.offset..] == s.input[s.offset..] + more
            && (s.matched.Some? ==> PostMatch(end) == Some(PostMatch(s).value + more) && PreMatch(end) == PreMatch(s))
  {
    assert (s.input + more)[s.offset..] == s.input[s.offset..] + more;
    assert (s.input + more)[..s.prevOffset] == s.input[..s.prevOffset];
  }

  predicate Consumes(op: Op) {
    op.Char? || ((op.Scan? || op.ScanUntil?) && op.advance)
  }

  function Whole(s: State): Option<string>
    requires InBounds(s)
  {
    if s.matched.None? then None else Some(PreMatch(s).value + s.matched.value + PostMatch(s).value)
  }

  /**
   After a consuming step the text before the match, the match and the text after it join
   to the input exactly when the match is the text at the offset, as it is for an anchored reader.
   */
  lemma {:induction false} ConsumingStepsKeepTheInput(s: State, op: Op)
    requires InBounds(s) && Possible(s, false, op) && Consumes(op) && Step(s, op).matched.Some?
    ensures var end := Step(s, op);
            && (Whole(end) == Some(s.input) <==>
                (op.Scan? ==> s.input[op.hit.value.from..op.hit.value.to] == s.input[s.offset..end.offset]))
  {
    var end := Step(s, op);
    var text := end.matched.value;
    assert s.input == s.input[..s.offset] + s.input[s.offset..end.offset] + s.input[end.offset..];
    assert op.ScanUntil? || op.Char? ==> text == s.input[s.offset..end.offset];
    assert op.Scan? ==> text == s.input[op.hit.value.from..op.hit.value.to];
    if Whole(end) == Some(s.input) {
      assert (s.input[..s.offset] + text + s.input[end.offset..])[s.offset..end.offset] == text;
    }
  }

  lemma {:induction false} AnchoredStepsKeepTheInput(s: State, op: Op)
    requires InBounds(s) && Possible(s, true, op) && Consumes(op) && Step(s, op).matched.Some?
    ensures Whole(Step(s, op)) == Some(s.input)
  {
    ConsumingStepsKeepTheInput(s, op);
  }

  /** `unread` takes back a step with a match exactly when the step consumed, or nothing was consumed before it. */
  lemma {:induction false} UnreadTakesBackExactlyWhere(s: State, op: Op)
    requires InBounds(s) && Possible(s, false, op) && (op.Char? || op.Scan? || op.ScanUntil?)
    requires Step(s, op).matched.Some?
    ensures Step(Step(s, op), Unread).offset == s.offset <==> Consumes(op) || s.prevOffset == s.offset
  {
  }

  /** After `read` and `look`, `unread` takes back what was read. */
  lemma {:induction false} UnreadGoesBackTooFar()
    ensures var read := Step(Start("ab"), Scan(Some(Hit(0, 1)), true));
            && Possible(Start("ab"), true, Scan(Some(Hit(0, 1)), true))
            && Possible(read, true, Scan(Some(Hit(1, 2)), false)) && read.offset == 1
            && Step(read, Scan(Some(Hit(1, 2)), false)).matched == Some("b")
            && Step(Step(read, Scan(Some(Hit(1, 2)), false)), Unread).offset == 0
  {
    assert "ab"[0..1] == "a" && "ab"[1..2] == "b";
  }

  function Matches(s: State, anchored: bool, ops: seq<Op>): string
    requires InBounds(s) && PossibleRun(s, anchored, ops)
    decreases |ops|
  {
    if ops == [] then ""
    else
      var next := Step(s, ops[0]);
      (if next.matched.Some? then next.matched.value else "") + Matches(next, anchored, ops[1..])
  }

  lemma {:induction false} OneMatch(s: State, op: Op)
    requires InBounds(s) && Possible(s, true, op) && Consumes(op)
    ensures var next := Step(s, op);
            && next.input == s.input && s.offset <= next.offset
            && (if next.matched.Some? then next.matched.value else "") == s.input[s.offset..next.offset]
  {
  }

  /** The matches of consuming steps join to the input read since. */
  lemma {:induction false} MatchesJoin(s: State, ops: seq<Op>)
    requires InBounds(s) && PossibleRun(s, true, ops) && forall i :: 0 <= i < |ops| ==> Consumes(ops[i])
    ensures var end := Run(s, true, ops);
            && end.input == s.input && s.offset <= end.offset <= |s.input|
            && Matches(s, true, ops) == s.input[s.offset..end.offset]
    decreases |ops|
  {
    hide Step, Consumes;
    if ops != [] {
      var next := Step(s, ops[0]);
      assert Consumes(ops[0]);
      OneMatch(s, ops[0]);
      MatchesJoin(next, ops[1..]);
      var end := Run(next, true, ops[1..]);
      assert s.input[s.offset..end.offset] == s.input[s.offset..next.offset] + s.input[next.offset..end.offset];
    }
  }

  lemma {:induction false} MatchesFromReset(input: string, ops: seq<Op>)
    requires PossibleRun(Start(input), true, ops) && forall i :: 0 <= i < |ops| ==> Consumes(ops[i])
    ensures Run(Start(input), true, ops).offset <= |input|
    ensures Matches(Start(input), true, ops) == input[..Run(Start(input), true, ops).offset]
  {
    MatchesJoin(Start(input), ops);
  }
}
