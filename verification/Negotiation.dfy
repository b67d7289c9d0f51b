/**
 MediaTypeNegotiator.php on parsed media ranges: which of the preferred ranges answers
 an Accept header best.
 */
module Negotiation {
  import opened Wrappers

  // Base and sub part are in lower case, as parseMediaRange leaves them.
  datatype MediaRange = MediaRange(base: string, sub: string, parameters: map<string, string>, quality: real)

  datatype Match = Match(quality: real, score: nat, index: nat)

  function Bit(b: bool): nat {
    if b then 1 else 0
  }

  function PlusAt(s: string): (n: nat)
    ensures n <= |s| && (n < |s| <==> '+' in s) && (n < |s| ==> s[n] == '+')
  {
    if s == "" || s[0] == '+' then 0 else assert s == [s[0]] + s[1..]; 1 + PlusAt(s[1..])
  }

  /** The parts before and after the first `+`. */
  function AtPlus(s: string): (string, string) {
    var n := PlusAt(s);
    (s[..n], if n < |s| then s[n + 1..] else "")
  }

  /** Every parameter of the range is one of the preferred range, with the same value. */
  predicate ParametersMatch(range: MediaRange, preferred: MediaRange) {
    forall key :: key in range.parameters ==>
      key in preferred.parameters && preferred.parameters[key] == range.parameters[key]
  }

  function MatchOf(range: MediaRange, preferred: MediaRange, index: nat): Option<Match> {
    var baseEqual := range.base == preferred.base;
    var subEqual := range.sub == preferred.sub;
    var baseMatches := range.base == "*" || baseEqual;
    var quality := range.quality * preferred.quality;
    if baseMatches && (range.sub == "*" || subEqual) && ParametersMatch(range, preferred) then
      Some(Match(quality, 100 * Bit(baseEqual) + 10 * Bit(subEqual) + |range.parameters|, index))
    else if '+' !in range.sub || '+' !in preferred.sub then None
    else
      var (sub, plus) := AtPlus(range.sub);
      var (preferredSub, preferredPlus) := AtPlus(preferred.sub);
      if !baseMatches || !(sub == "*" || preferredSub == "*" || plus == "*" || preferredPlus == "*") then None
      else
        var subEqual', plusEqual := sub == preferredSub, plus == preferredPlus;
        if
          && (sub == "*" || preferredSub == "*" || subEqual')
          && (plus == "*" || preferredPlus == "*" || plusEqual)
          && ParametersMatch(range, preferred)
        then
          Some(Match(
            quality, 100 * Bit(baseEqual) + 10 * Bit(subEqual') + Bit(plusEqual) + |range.parameters|, index))
        else None
  }

  // When a range matches, and how well, said of types, subtypes and parameters alone

  /** The range has the given parts before and after the first `+` of its subtype. */
  ghost predicate Splits(sub: string, before: string, after: string) {
    '+' !in before && sub == before + "+" + after
  }

  ghost predicate OneOf(part: string, other: string) {
    part == "*" || other == "*" || part == other
  }

  /** Both subtypes have a `+`, one of their four parts is a star, and the parts agree but for stars. */
  ghost predicate PlusCovers(sub: string, other: string) {
    exists a, b, c, d ::
      && Splits(sub, a, b) && Splits(other, c, d)
      && (a == "*" || b == "*" || c == "*" || d == "*") && OneOf(a, c) && OneOf(b, d)
  }

  /** The range accepts the preferred one. */
  ghost predicate Covers(range: MediaRange, preferred: MediaRange) {
    && (range.base == "*" || range.base == preferred.base)
    && (range.sub == "*" || range.sub == preferred.sub || PlusCovers(range.sub, preferred.sub))
    && ParametersMatch(range, preferred)
  }

  lemma {:induction false} PlusIsFirst(before: string, after: string)
    requires '+' !in before
    ensures PlusAt(before + "+" + after) == |before|
  {
    var s := before + "+" + after;
    if before != "" {
      assert s[0] == before[0] && before[0] in before && s[1..] == before[1..] + "+" + after;
      PlusIsFirst(before[1..], after);
    }
  }

  lemma {:induction false} NoPlusBefore(s: string)
    ensures '+' !in s[..PlusAt(s)]
  {
    if s != "" && s[0] != '+' {
      NoPlusBefore(s[1..]);
      assert s[..PlusAt(s)] == [s[0]] + s[1..][..PlusAt(s[1..])];
    }
  }

  lemma {:induction false} AtPlusSplits(s: string, before: string, after: string)
    ensures Splits(s, before, after) <==> '+' in s && AtPlus(s) == (before, after)
  {
    if Splits(s, before, after) {
      PlusIsFirst(before, after);
      assert s[..|before|] == before && s[|before| + 1..] == after && s[|before|] == '+';
    }
    if '+' in s && AtPlus(s) == (before, after) {
      NoPlusBefore(s);
      assert s == s[..PlusAt(s)] + [s[PlusAt(s)]] + s[PlusAt(s) + 1..];
    }
  }

  /** PlusCovers for given parts. */
  predicate PartsAgree(a: string, b: string, c: string, d: string) {
    && (a == "*" || b == "*" || c == "*" || d == "*")
    && (a == "*" || c == "*" || a == c) && (b == "*" || d == "*" || b == d)
  }

  lemma {:induction false} PlusCoversMeans(sub: string, other: string)
    ensures PlusCovers(sub, other) <==>
            && '+' in sub && '+' in other
            && PartsAgree(AtPlus(sub).0, AtPlus(sub).1, AtPlus(other).0, AtPlus(other).1)
  {
    hide AtPlus, Splits;
    var ((a, b), (c, d)) := (AtPlus(sub), AtPlus(other));
    if PlusCovers(sub, other) {
      var a', b', c', d' :|
        && Splits(sub, a', b') && Splits(other, c', d')
        && (a' == "*" || b' == "*" || c' == "*" || d' == "*") && OneOf(a', c') && OneOf(b', d');
      AtPlusSplits(sub, a', b');
      AtPlusSplits(other, c', d');
    }
    if '+' in sub && '+' in other && PartsAgree(a, b, c, d) {
      AtPlusSplits(sub, a, b);
      AtPlusSplits(other, c, d);
      assert OneOf(a, c) && OneOf(b, d);
    }
  }

  /** There is a match exactly when the range covers the preferred one. */
  lemma {:induction false} MatchesExactlyWhere(range: MediaRange, preferred: MediaRange, index: nat)
    ensures MatchOf(range, preferred, index).Some? <==> Covers(range, preferred)
  {
    hide AtPlus, PlusCovers, ParametersMatch;
    PlusCoversMeans(range.sub, preferred.sub);
  }

  // How specific a range is for a preferred one

  datatype Kind = Anything | AnyType | AnySubtype | SamePlus | SameBeforePlus | Same

  // From `*/*` to the type and subtype themselves. A range can match in other ways with stars around a `+`.
  ghost predicate IsKind(range: MediaRange, preferred: MediaRange, kind: Kind) {
    match kind
    case Same => range.base == preferred.base && range.sub == preferred.sub
    case SameBeforePlus =>
      && range.base == preferred.base
      && exists a, d :: Splits(range.sub, a, "*") && Splits(preferred.sub, a, d) && d != "*"
    case SamePlus =>
      && range.base == preferred.base
      && exists b, c :: Splits(range.sub, "*", b) && Splits(preferred.sub, c, b) && c != "*"
    case AnySubtype => range.base == preferred.base && range.sub == "*" != preferred.sub
    case AnyType => range.base == "*" != preferred.base && range.sub == preferred.sub
    case Anything => range.base == "*" != preferred.base && range.sub == "*" != preferred.sub
  }

  /** What the kind adds to the score; equal for a subtype and for what stands before its `+`. */
  function Worth(kind: Kind): nat {
    match kind
    case Same => 110
    case SameBeforePlus => 110
    case SamePlus => 101
    case AnySubtype => 100
    case AnyType => 10
    case Anything => 0
  }

  lemma {:induction false} ScoreOfKind(range: MediaRange, preferred: MediaRange, index: nat, kind: Kind)
    requires MatchOf(range, preferred, index).Some? && IsKind(range, preferred, kind)
    ensures MatchOf(range, preferred, index).value.score == Worth(kind) + |range.parameters|
  {
    hide ParametersMatch, AtPlus;
    if kind.SameBeforePlus? {
      var a, d :| Splits(range.sub, a, "*") && Splits(preferred.sub, a, d) && d != "*";
      AtPlusSplits(range.sub, a, "*");
      AtPlusSplits(preferred.sub, a, d);
    } else if kind.SamePlus? {
      var b, c :| Splits(range.sub, "*", b) && Splits(preferred.sub, c, b) && c != "*";
      AtPlusSplits(range.sub, "*", b);
      AtPlusSplits(preferred.sub, c, b);
    }
  }

  // With the same number of parameters an equal type and subtype outrank `type/*`, which
  // outranks `*/*`; and one parameter more raises the score of a range of the same kind.
  lemma {:induction false} SpecificOutranks(
    range: MediaRange, other: MediaRange, preferred: MediaRange, index: nat, kind: Kind, kind': Kind
  )
    requires MatchOf(range, preferred, index).Some? && IsKind(range, preferred, kind)
    requires MatchOf(other, preferred, index).Some? && IsKind(other, preferred, kind')
    ensures var score := MatchOf(range, preferred, index).value.score;
            var score' := MatchOf(other, preferred, index).value.score;
            var n, n' := |range.parameters|, |other.parameters|;
            && (n == n' ==> (score > score' <==> Worth(kind) > Worth(kind')))
            && (kind == kind' ==> (score > score' <==> n > n'))
            && (kind == Same && kind' == AnySubtype ==> (score > score' <==> n + 10 > n'))
            && (kind == AnySubtype && kind' == Anything ==> (score > score' <==> n + 100 > n'))
            && (kind == Same && kind' == Anything ==> (score > score' <==> n + 110 > n'))
  {
    ScoreOfKind(range, preferred, index, kind);
    ScoreOfKind(other, preferred, index, kind');
  }

  function MatchesOf(ranges: seq<MediaRange>, preferred: MediaRange, index: nat): seq<Match> {
    if ranges == [] then []
    else
      var m := MatchOf(ranges[0], preferred, index);
      (if m.Some? then [m.value] else []) + MatchesOf(ranges[1..], preferred, index)
  }

  /** Those of the first `n` preferred ranges. */
  function Matches(ranges: seq<MediaRange>, preferred: seq<MediaRange>, n: nat): seq<Match>
    requires n <= |preferred|
  {
    if n == 0 then [] else Matches(ranges, preferred, n - 1) + MatchesOf(ranges, preferred[n - 1], n - 1)
  }

  // The reduction: one match for each index, in the order of their first matches.

  function Carry(carry: seq<Match>, m: Match): seq<Match> {
    if carry == [] then [m]
    else if carry[0].index == m.index then
      if carry[0].score < m.score then [m] + carry[1..] else carry
    else [carry[0]] + Carry(carry[1..], m)
  }

  function Specific(carry: seq<Match>, matches: seq<Match>): seq<Match>
    decreases |matches|
  {
    if matches == [] then carry else Specific(Carry(carry, matches[0]), matches[1..])
  }

  // usort with the comparison of detectBest

  predicate Before(a: Match, b: Match) {
    a.quality > b.quality || (a.quality == b.quality && a.index <= b.index)
  }

  function Insert(m: Match, sorted: seq<Match>): seq<Match> {
    if sorted == [] || Before(m, sorted[0]) then [m] + sorted else [sorted[0]] + Insert(m, sorted[1..])
  }

  function Sort(matches: seq<Match>): seq<Match> {
    if matches == [] then [] else Insert(matches[0], Sort(matches[1..]))
  }

  /** The preferred range that detectBest gives, by its index. */
  function Detected(ranges: seq<MediaRange>, preferred: seq<MediaRange>): Option<nat> {
    var sorted := Sort(Specific([], Matches(ranges, preferred, |preferred|)));
    if sorted == [] then None else Some(sorted[0].index)
  }

  method FindMatches(ranges: seq<MediaRange>, preferred: seq<MediaRange>) returns (matches: seq<Match>)
    ensures matches == Matches(ranges, preferred, |preferred|)
  {
    hide MatchOf, MatchesOf;
    matches := [];
    for i := 0 to |preferred|
      invariant matches == Matches(ranges, preferred, i)
    {
      ghost var before := matches;
      assert ranges[..0] == [] && before + [] == before && ranges[..|ranges|] == ranges;
      MatchesOfNone(preferred[i], i);
      for j := 0 to |ranges|
        invariant matches == before + MatchesOf(ranges[..j], preferred[i], i)
      {
        assert ranges[..j + 1] == ranges[..j] + [ranges[j]];
        MatchesOfMore(ranges[..j], ranges[j], preferred[i], i);
        var m := MatchOf(ranges[j], preferred[i], i);
        if m.Some? {
          matches := matches + [m.value];
        }
      }
    }
  }

  lemma {:induction false} MatchesOfNone(preferred: MediaRange, i: nat)
    ensures MatchesOf([], preferred, i) == []
  {
  }

  /** detectBest after parsing; None stands for false. */
  method DetectBest(ranges: seq<MediaRange>, preferred: seq<MediaRange>) returns (best: Option<MediaRange>)
    ensures Detected(ranges, preferred).Some? ==> Detected(ranges, preferred).value < |preferred|
    ensures best == match Detected(ranges, preferred) { case None => None case Some(i) => Some(preferred[i]) }
  {
    DetectedInside(ranges, preferred);
    if |ranges| == 0 || |preferred| == 0 {
      NoRanges(ranges, preferred);
      return None;
    }
    var matches := FindMatches(ranges, preferred);
    var specific: seq<Match> := [];
    for i := 0 to |matches|
      invariant Specific(specific, matches[i..]) == Specific([], matches)
    {
      assert matches[i..][0] == matches[i] && matches[i..][1..] == matches[i + 1..];
      specific := Carry(specific, matches[i]);
    }
    var sorted := Sort(specific);
    if |sorted| == 0 {
      return None;
    }
    return Some(preferred[sorted[0].index]);
  }

  // The judgement of one preferred range: the first of its matches with the highest score

  function FirstHighest(matches: seq<Match>): (m: Match)
    requires matches != []
  {
    if |matches| == 1 then matches[0]
    else
      var rest := FirstHighest(matches[..|matches| - 1]);
      if rest.score < matches[|matches| - 1].score then matches[|matches| - 1] else rest
  }

  function Judgements(ranges: seq<MediaRange>, preferred: seq<MediaRange>, n: nat): seq<Match>
    requires n <= |preferred|
  {
    if n == 0 then []
    else
      var own := MatchesOf(ranges, preferred[n - 1], n - 1);
      Judgements(ranges, preferred, n - 1) + if own == [] then [] else [FirstHighest(own)]
  }

  predicate AllOf(matches: seq<Match>, index: nat) {
    forall k :: 0 <= k < |matches| ==> matches[k].index == index
  }

  predicate Below(matches: seq<Match>, n: nat) {
    forall k :: 0 <= k < |matches| ==> matches[k].index < n
  }

  predicate NoneOf(matches: seq<Match>, index: nat) {
    forall k :: 0 <= k < |matches| ==> matches[k].index != index
  }

  lemma {:induction false} MatchesHaveIndex(ranges: seq<MediaRange>, preferred: MediaRange, index: nat)
    ensures AllOf(MatchesOf(ranges, preferred, index), index)
  {
    if ranges != [] {
      MatchesHaveIndex(ranges[1..], preferred, index);
    }
  }

  lemma {:induction false} SpecificTwice(carry: seq<Match>, a: seq<Match>, b: seq<Match>)
    ensures Specific(carry, a + b) == Specific(Specific(carry, a), b)
    decreases |a|
  {
    if a == [] {
      assert a + b == b;
    } else {
      assert (a + b)[0] == a[0] && (a + b)[1..] == a[1..] + b;
      SpecificTwice(Carry(carry, a[0]), a[1..], b);
    }
  }

  lemma {:induction false} CarryLast(carry: seq<Match>, own: seq<Match>, m: Match)
    requires NoneOf(carry, m.index) && |own| <= 1 && AllOf(own, m.index)
    ensures own == [] ==> Carry(carry + own, m) == carry + [m]
    ensures own != [] ==> Carry(carry + own, m) == carry + [if own[0].score < m.score then m else own[0]]
  {
    if carry == [] {
      assert carry + own == own && [] + [m] == [m];
    } else {
      assert (carry + own)[0] == carry[0] && (carry + own)[1..] == carry[1..] + own;
      CarryLast(carry[1..], own, m);
    }
  }

  lemma {:induction false} SpecificOfOne(carry: seq<Match>, own: seq<Match>, index: nat)
    requires NoneOf(carry, index) && AllOf(own, index)
    ensures Specific(carry, own) == if own == [] then carry else carry + [FirstHighest(own)]
    decreases |own|
  {
    if own != [] {
      var n := |own| - 1;
      var front, last := own[..n], own[n];
      assert own == front + [last];
      SpecificOfOne(carry, front, index);
      SpecificTwice(carry, front, [last]);
      var done := Specific(carry, front);
      assert Specific(done, [last]) == Carry(done, last);
      if front == [] {
        CarryLast(carry, [], last);
        assert carry + [] == carry;
      } else {
        FirstHighestHasIndex(front, index);
        CarryLast(carry, [FirstHighest(front)], last);
      }
    }
  }

  lemma {:induction false} FirstHighestHasIndex(matches: seq<Match>, index: nat)
    requires matches != [] && AllOf(matches, index)
    ensures FirstHighest(matches).index == index
  {
    if |matches| > 1 {
      FirstHighestHasIndex(matches[..|matches| - 1], index);
    }
  }

  lemma {:induction false} JudgementsHaveIndexes(ranges: seq<MediaRange>, preferred: seq<MediaRange>, n: nat)
    requires n <= |preferred|
    ensures Below(Judgements(ranges, preferred, n), n)
  {
    if n > 0 {
      hide MatchesOf, FirstHighest;
      JudgementsHaveIndexes(ranges, preferred, n - 1);
      MatchesHaveIndex(ranges, preferred[n - 1], n - 1);
      var own := MatchesOf(ranges, preferred[n - 1], n - 1);
      if own != [] {
        FirstHighestHasIndex(own, n - 1);
      }
    }
  }

  lemma {:induction false} NoneBelow(matches: seq<Match>, n: nat)
    requires Below(matches, n)
    ensures NoneOf(matches, n)
  {
  }

  lemma {:induction false} SpecificOfNothing()
    ensures Specific([], []) == []
  {
  }

  lemma {:induction false} SpecificIsJudgements(ranges: seq<MediaRange>, preferred: seq<MediaRange>, n: nat)
    requires n <= |preferred|
    ensures Specific([], Matches(ranges, preferred, n)) == Judgements(ranges, preferred, n)
  {
    hide MatchesOf, FirstHighest, NoneOf, Specific, AllOf, Below;
    if n == 0 {
      SpecificOfNothing();
    } else {
      var before, own := Matches(ranges, preferred, n - 1), MatchesOf(ranges, preferred[n - 1], n - 1);
      SpecificIsJudgements(ranges, preferred, n - 1);
      SpecificTwice([], before, own);
      JudgementsHaveIndexes(ranges, preferred, n - 1);
      NoneBelow(Judgements(ranges, preferred, n - 1), n - 1);
      MatchesHaveIndex(ranges, preferred[n - 1], n - 1);
      SpecificOfOne(Judgements(ranges, preferred, n - 1), own, n - 1);
    }
  }

  lemma {:induction false} InsertSorts(m: Match, sorted: seq<Match>)
    requires forall x :: x in sorted ==> Before(sorted[0], x)
    ensures var r := Insert(m, sorted);
            && r != [] && (forall x :: x in r ==> Before(r[0], x)) && multiset(r) == multiset(sorted) + multiset{m}
    ensures Insert(m, sorted)[0] == if sorted == [] || Before(m, sorted[0]) then m else sorted[0]
  {
    if sorted != [] && !Before(m, sorted[0]) {
      InsertKeeps(m, sorted[1..]);
      assert sorted == [sorted[0]] + sorted[1..];
    }
  }

  lemma {:induction false} InsertKeeps(m: Match, sorted: seq<Match>)
    ensures multiset(Insert(m, sorted)) == multiset(sorted) + multiset{m}
    ensures forall x :: x in Insert(m, sorted) ==> x == m || x in sorted
  {
    if sorted != [] && !Before(m, sorted[0]) {
      InsertKeeps(m, sorted[1..]);
      assert sorted == [sorted[0]] + sorted[1..];
    }
  }

  lemma {:induction false} SortSorts(matches: seq<Match>)
    ensures multiset(Sort(matches)) == multiset(matches)
    ensures Sort(matches) == [] <==> matches == []
    ensures forall x :: x in Sort(matches) ==> Before(Sort(matches)[0], x)
    ensures Sort(matches) != [] ==> Sort(matches)[0] in matches
    ensures forall x :: x in matches ==> x in Sort(matches)
  {
    hide Before, Insert;
    if matches != [] {
      SortSorts(matches[1..]);
      InsertSorts(matches[0], Sort(matches[1..]));
      assert matches == [matches[0]] + matches[1..];
    }
    SameElements(Sort(matches), matches);
  }

  lemma {:induction false} SameElements(a: seq<Match>, b: seq<Match>)
    requires multiset(a) == multiset(b)
    ensures forall x :: x in a <==> x in b
  {
    assert forall x :: x in a <==> x in multiset(a);
    assert forall x :: x in b <==> x in multiset(b);
  }

  lemma {:induction false} NoRanges(ranges: seq<MediaRange>, preferred: seq<MediaRange>)
    requires ranges == [] || preferred == []
    ensures Detected(ranges, preferred) == None
  {
    NoMatches(ranges, preferred, |preferred|);
  }

  lemma {:induction false} NoMatches(ranges: seq<MediaRange>, preferred: seq<MediaRange>, n: nat)
    requires n <= |preferred| && (ranges == [] || preferred == [])
    ensures Matches(ranges, preferred, n) == []
  {
    if n > 0 {
      NoMatches(ranges, preferred, n - 1);
    }
  }

  lemma {:induction false} DetectedInside(ranges: seq<MediaRange>, preferred: seq<MediaRange>)
    ensures Detected(ranges, preferred).Some? ==> Detected(ranges, preferred).value < |preferred|
  {
    var judged := Judgements(ranges, preferred, |preferred|);
    SpecificIsJudgements(ranges, preferred, |preferred|);
    JudgementsHaveIndexes(ranges, preferred, |preferred|);
    SortSorts(judged);
    if Sort(judged) != [] {
      var k :| 0 <= k < |judged| && judged[k] == Sort(judged)[0];
    }
  }

  /** The match of range `j` decides for preferred range `i`: none has a higher score, and none before it the same. */
  ghost predicate Decides(ranges: seq<MediaRange>, preferred: seq<MediaRange>, i: nat, j: nat)
    requires i < |preferred| && j < |ranges|
  {
    var m := MatchOf(ranges[j], preferred[i], i);
    && m.Some?
    && forall k :: 0 <= k < |ranges| && MatchOf(ranges[k], preferred[i], i).Some? ==>
         var other := MatchOf(ranges[k], preferred[i], i).value;
         other.score <= m.value.score && (k < j ==> other.score < m.value.score)
  }

  lemma {:induction false} MatchesOfMore(ranges: seq<MediaRange>, last: MediaRange, preferred: MediaRange, index: nat)
    ensures MatchesOf(ranges + [last], preferred, index) == MatchesOf(ranges, preferred, index)
              + (match MatchOf(last, preferred, index) { case None => [] case Some(m) => [m] })
  {
    hide MatchOf;
    if ranges == [] {
      assert ranges + [last] == [last] && [last][1..] == [];
    } else {
      assert (ranges + [last])[0] == ranges[0] && (ranges + [last])[1..] == ranges[1..] + [last];
      MatchesOfMore(ranges[1..], last, preferred, index);
    }
  }

  /** The judgement of preferred range `i` is the match that decides for it. */
  lemma {:induction false} FirstHighestDecides(ranges: seq<MediaRange>, preferred: seq<MediaRange>, i: nat)
    returns (j: nat)
    requires i < |preferred| && MatchesOf(ranges, preferred[i], i) != []
    ensures j < |ranges| && Decides(ranges, preferred, i, j)
    ensures MatchOf(ranges[j], preferred[i], i) == Some(FirstHighest(MatchesOf(ranges, preferred[i], i)))
    decreases |ranges|
  {
    hide MatchOf, MatchesOf;
    NothingWithout(ranges, preferred[i], i);
    var n := |ranges| - 1;
    var front, last := ranges[..n], ranges[n];
    assert ranges == front + [last];
    MatchesOfMore(front, last, preferred[i], i);
    var own, before := MatchesOf(ranges, preferred[i], i), MatchesOf(front, preferred[i], i);
    var m := MatchOf(last, preferred[i], i);
    assert before + [] == before;
    assert m.Some? ==> own[..|own| - 1] == before;
    if before == [] {
      j := n;
      NothingMatches(front, preferred[i], i);
    } else {
      j := FirstHighestDecides(front, preferred, i);
      assert forall k :: 0 <= k < n ==> front[k] == ranges[k];
      if m.Some? && FirstHighest(before).score < m.value.score {
        j := n;
      }
    }
  }

  lemma {:induction false} NothingWithout(ranges: seq<MediaRange>, preferred: MediaRange, i: nat)
    ensures ranges == [] ==> MatchesOf(ranges, preferred, i) == []
  {
  }

  lemma {:induction false} NothingMatches(ranges: seq<MediaRange>, preferred: MediaRange, i: nat)
    ensures MatchesOf(ranges, preferred, i) == [] <==>
            forall j :: 0 <= j < |ranges| ==> MatchOf(ranges[j], preferred, i).None?
  {
    hide MatchOf;
    if ranges != [] {
      NothingMatches(ranges[1..], preferred, i);
      assert forall j :: 0 <= j < |ranges[1..]| ==> ranges[1..][j] == ranges[j + 1];
      if forall j :: 0 <= j < |ranges| ==> MatchOf(ranges[j], preferred, i).None? {
        assert MatchOf(ranges[0], preferred, i).None?;
      }
      if MatchesOf(ranges, preferred, i) == [] {
        forall j | 0 <= j < |ranges| ensures MatchOf(ranges[j], preferred, i).None? {
          assert j > 0 ==> MatchOf(ranges[1..][j - 1], preferred, i).None?;
        }
      }
    }
  }

  lemma {:induction false} JudgementsAre(ranges: seq<MediaRange>, preferred: seq<MediaRange>, n: nat, i: nat)
    requires i < n <= |preferred| && MatchesOf(ranges, preferred[i], i) != []
    ensures FirstHighest(MatchesOf(ranges, preferred[i], i)) in Judgements(ranges, preferred, n)
  {
    hide MatchesOf, FirstHighest;
    if i < n - 1 {
      JudgementsAre(ranges, preferred, n - 1, i);
    }
  }

  lemma {:induction false} JudgementsComeFrom(ranges: seq<MediaRange>, preferred: seq<MediaRange>, n: nat, m: Match)
    requires n <= |preferred| && m in Judgements(ranges, preferred, n)
    ensures m.index < n
    ensures var own := MatchesOf(ranges, preferred[m.index], m.index);
            own != [] && m == FirstHighest(own)
  {
    hide MatchesOf;
    if m in Judgements(ranges, preferred, n - 1) {
      JudgementsComeFrom(ranges, preferred, n - 1, m);
    } else {
      MatchesHaveIndex(ranges, preferred[n - 1], n - 1);
      FirstHighestHasIndex(MatchesOf(ranges, preferred[n - 1], n - 1), n - 1);
    }
  }

  lemma {:induction false} OneDecides(ranges: seq<MediaRange>, preferred: seq<MediaRange>, i: nat, j: nat, k: nat)
    requires i < |preferred| && j < |ranges| && k < |ranges|
    requires Decides(ranges, preferred, i, j) && Decides(ranges, preferred, i, k)
    ensures j == k
  {
    hide MatchOf;
  }

  ghost function Weight(ranges: seq<MediaRange>, preferred: seq<MediaRange>, i: nat, j: nat): real
    requires i < |preferred| && j < |ranges|
  {
    ranges[j].quality * preferred[i].quality
  }

  lemma {:induction false} MatchWeight(ranges: seq<MediaRange>, preferred: seq<MediaRange>, i: nat, j: nat)
    requires i < |preferred| && j < |ranges|
    ensures var m := MatchOf(ranges[j], preferred[i], i);
            m.Some? ==> m.value.quality == Weight(ranges, preferred, i, j) && m.value.index == i
  {
  }

  /** Nothing is detected exactly when no range matches a preferred one. */
  lemma {:induction false} DetectsNothingExactlyWhere(ranges: seq<MediaRange>, preferred: seq<MediaRange>)
    ensures Detected(ranges, preferred) == None <==>
            forall i, j :: 0 <= i < |preferred| && 0 <= j < |ranges| ==> MatchOf(ranges[j], preferred[i], i).None?
  {
    hide MatchOf, MatchesOf, FirstHighest;
    var judged := Judgements(ranges, preferred, |preferred|);
    SpecificIsJudgements(ranges, preferred, |preferred|);
    SortSorts(judged);
    if judged != [] {
      JudgementsComeFrom(ranges, preferred, |preferred|, judged[0]);
      NothingMatches(ranges, preferred[judged[0].index], judged[0].index);
    } else {
      forall i, j | 0 <= i < |preferred| && 0 <= j < |ranges| ensures MatchOf(ranges[j], preferred[i], i).None? {
        if MatchesOf(ranges, preferred[i], i) != [] {
          JudgementsAre(ranges, preferred, |preferred|, i);
        }
        NothingMatches(ranges, preferred[i], i);
      }
    }
  }

  /**
   What is detected has the greatest product of qualities, each preferred range being
   judged by the match that decides for it; of equals the first is detected.
   */
  lemma {:induction false} DetectsTheBest(ranges: seq<MediaRange>, preferred: seq<MediaRange>) returns (j: nat)
    requires Detected(ranges, preferred).Some?
    ensures var i := Detected(ranges, preferred).value;
            && i < |preferred| && j < |ranges| && Decides(ranges, preferred, i, j)
            && forall i', j' :: 0 <= i' < |preferred| && 0 <= j' < |ranges| && Decides(ranges, preferred, i', j') ==>
                 Weight(ranges, preferred, i', j') < Weight(ranges, preferred, i, j)
                 || (Weight(ranges, preferred, i', j') == Weight(ranges, preferred, i, j) && i <= i')
  {
    hide MatchOf, MatchesOf, FirstHighest, Weight;
    var judged := Judgements(ranges, preferred, |preferred|);
    SpecificIsJudgements(ranges, preferred, |preferred|);
    SortSorts(judged);
    var best := Sort(judged)[0];
    JudgementsComeFrom(ranges, preferred, |preferred|, best);
    var i := best.index;
    j := FirstHighestDecides(ranges, preferred, i);
    MatchWeight(ranges, preferred, i, j);
    forall i', j' | 0 <= i' < |preferred| && 0 <= j' < |ranges| && Decides(ranges, preferred, i', j')
      ensures Weight(ranges, preferred, i', j') < Weight(ranges, preferred, i, j)
           || (Weight(ranges, preferred, i', j') == Weight(ranges, preferred, i, j) && i <= i')
    {
      NothingMatches(ranges, preferred[i'], i');
      var k := FirstHighestDecides(ranges, preferred, i');
      OneDecides(ranges, preferred, i', j', k);
      MatchWeight(ranges, preferred, i', j');
      JudgementsAre(ranges, preferred, |preferred|, i');
      assert FirstHighest(MatchesOf(ranges, preferred[i'], i')) in Sort(judged);
    }
  }

  /**
   Section 12.4.2 of RFC 9110 calls weight 0 not acceptable. What is detected is
   acceptable exactly when some preferred range is: with weights that are not
   negative, one of weight 0 is detected exactly when all that decide weigh 0.
   */
  lemma {:induction false} DetectsUnacceptableExactlyWhere(ranges: seq<MediaRange>, preferred: seq<MediaRange>)
    returns (j: nat)
    requires Detected(ranges, preferred).Some?
    ensures var i := Detected(ranges, preferred).value;
            && i < |preferred| && j < |ranges| && Decides(ranges, preferred, i, j)
            && (Weight(ranges, preferred, i, j) <= 0.0 <==>
                forall i', j' :: 0 <= i' < |preferred| && 0 <= j' < |ranges| && Decides(ranges, preferred, i', j') ==>
                  Weight(ranges, preferred, i', j') <= 0.0)
            && ((forall i', j' :: 0 <= i' < |preferred| && 0 <= j' < |ranges| ==>
                   Weight(ranges, preferred, i', j') >= 0.0) ==>
                (Weight(ranges, preferred, i, j) == 0.0 <==>
                 forall i', j' :: 0 <= i' < |preferred| && 0 <= j' < |ranges| && Decides(ranges, preferred, i', j') ==>
                   Weight(ranges, preferred, i', j') == 0.0))
  {
    hide Weight, Decides;
    j := DetectsTheBest(ranges, preferred);
  }

  /** So a range of weight 0 is detected when it is the only one. */
  lemma {:induction false} WeightZeroIsDetected(base: string, sub: string)
    ensures Detected([MediaRange(base, sub, map[], 0.0)], [MediaRange(base, sub, map[], 1.0)]) == Some(0)
  {
    var range, preferred := MediaRange(base, sub, map[], 0.0), MediaRange(base, sub, map[], 1.0);
    assert MatchOf(range, preferred, 0).Some?;
    DetectsNothingExactlyWhere([range], [preferred]);
    assert [range][0] == range && [preferred][0] == preferred;
    var j := DetectsTheBest([range], [preferred]);
  }

  /**
   What is detected is judged by the most specific range: where one that matches outranks
   a wildcard, the wildcard does not decide.
   */
  lemma {:induction false} WildcardsGiveWay(
    ranges: seq<MediaRange>, preferred: seq<MediaRange>, i: nat, j: nat, k: nat, kind: Kind, kind': Kind
  )
    requires i < |preferred| && j < |ranges| && k < |ranges|
    requires Covers(ranges[k], preferred[i]) && IsKind(ranges[k], preferred[i], kind)
    requires IsKind(ranges[j], preferred[i], kind')
    requires Worth(kind) + |ranges[k].parameters| > Worth(kind') + |ranges[j].parameters|
    ensures !Decides(ranges, preferred, i, j)
  {
    hide MatchOf;
    MatchesExactlyWhere(ranges[k], preferred[i], i);
    ScoreOfKind(ranges[k], preferred[i], i, kind);
    if MatchOf(ranges[j], preferred[i], i).Some? {
      ScoreOfKind(ranges[j], preferred[i], i, kind');
    }
  }

  /** So the range that decides for what is detected is no wildcard where the type and subtype are listed too. */
  lemma {:induction false} DetectedByTheListedType(ranges: seq<MediaRange>, preferred: seq<MediaRange>, k: nat)
    returns (j: nat)
    requires Detected(ranges, preferred).Some? && k < |ranges|
    requires Detected(ranges, preferred).value < |preferred| ==>
               var best := preferred[Detected(ranges, preferred).value];
               && best.base != "*" && best.sub != "*" && Covers(ranges[k], best) && IsKind(ranges[k], best, Same)
    requires forall x :: 0 <= x < |ranges| ==> |ranges[x].parameters| < |ranges[k].parameters| + 10
    ensures var i := Detected(ranges, preferred).value;
            && i < |preferred| && j < |ranges| && Decides(ranges, preferred, i, j)
            && !(ranges[j].base == preferred[i].base && ranges[j].sub == "*")
            && !(ranges[j].base == "*" && ranges[j].sub == "*")
  {
    hide Decides, Covers;
    j := DetectsTheBest(ranges, preferred);
    var i := Detected(ranges, preferred).value;
    if ranges[j].sub == "*" && (ranges[j].base == "*" || ranges[j].base == preferred[i].base) {
      WildcardsGiveWay(ranges, preferred, i, j, k, Same, if ranges[j].base == "*" then Anything else AnySubtype);
    }
  }

  const Html := MediaRange("text", "html", map[], 0.1)
  const Json := MediaRange("application", "json", map[], 0.5)
  const AnyText := MediaRange("text", "*", map[], 1.0)

  const Accepted := [AnyText, Html, Json]
  const Offered := [Html.(quality := 1.0), Json.(quality := 1.0)]

  // `text/*, text/html;q=0.1, application/json;q=0.5`: html is judged by its own weight, and json is detected.
  lemma {:induction false} ListedTypeCounts()
    ensures Detected(Accepted, Offered) == Some(1)
  {
    hide MatchOf, Decides, Detected, Weight;
    DetectsNothingExactlyWhere(Accepted, Offered);
    JsonDecides();
    var j := DetectsTheBest(Accepted, Offered);
    if Detected(Accepted, Offered) == Some(0) {
      HtmlWeighsLess(j);
    }
  }

  lemma {:induction false} Names()
    ensures "text" != "*" && "html" != "*" && "application" != "text" && "application" != "*"
    ensures "json" != "html" && "json" != "*" && '+' !in "html" && '+' !in "json" && '+' !in "*"
  {
    assert |"text"| == 4 && |"html"| == 4 && |"*"| == 1 && |"json"| == 4 && |"application"| == 11;
    assert "json"[0] != "html"[0];
  }

  lemma {:induction false} JsonDecides()
    ensures MatchOf(Accepted[2], Offered[1], 1).Some? && Decides(Accepted, Offered, 1, 2)
  {
    hide MatchOf, PlusCovers;
    Names();
    assert Covers(Json, Json.(quality := 1.0)) && !Covers(Html, Offered[1]) && !Covers(AnyText, Offered[1]);
    MatchesExactlyWhere(Accepted[0], Offered[1], 1);
    MatchesExactlyWhere(Accepted[1], Offered[1], 1);
    MatchesExactlyWhere(Accepted[2], Offered[1], 1);
  }

  lemma {:induction false} HtmlWeighsLess(j: nat)
    requires j < |Accepted| && Decides(Accepted, Offered, 0, j)
    ensures Weight(Accepted, Offered, 0, j) < Weight(Accepted, Offered, 1, 2)
  {
    hide MatchOf, PlusCovers;
    Names();
    assert !Covers(Json, Offered[0]);
    MatchesExactlyWhere(Accepted[2], Offered[0], 0);
    assert IsKind(AnyText, Offered[0], AnySubtype) && IsKind(Html, Offered[0], Same) && Covers(Html, Offered[0]);
    WildcardsGiveWay(Accepted, Offered, 0, 0, 1, Same, AnySubtype);
  }
}
