/**
 `permutations` of Base/index.php on a list.
 */
module Orderings {
  function Without<T>(s: seq<T>, i: nat): seq<T>
    requires i < |s|
  {
    s[..i] + s[i + 1..]
  }

  function Prefixed<T>(x: T, ps: seq<seq<T>>): (r: seq<seq<T>>)
    ensures |r| == |ps| && forall i :: 0 <= i < |ps| ==> r[i] == [x] + ps[i]
  {
    if ps == [] then [] else [[x] + ps[0]] + Prefixed(x, ps[1..])
  }

  function All<T>(s: seq<T>): seq<seq<T>>
    decreases |s|, |s| + 1
  {
    if |s| <= 1 then [s]
    else if |s| == 2 then [s, [s[1], s[0]]]
    else StartingBefore(s, |s|)
  }

  /** Those that start with one of the first `k` elements. */
  function StartingBefore<T>(s: seq<T>, k: nat): seq<seq<T>>
    requires 2 < |s| && k <= |s|
    decreases |s|, k
  {
    if k == 0 then [] else StartingBefore(s, k - 1) + Prefixed(s[k - 1], All(Without(s, k - 1)))
  }

  /** The inner loop: each of `others` after the removed element. */
  method PutFirst<T>(permutations: seq<seq<T>>, removed: T, others: seq<seq<T>>) returns (all: seq<seq<T>>)
    ensures all == permutations + Prefixed(removed, others)
  {
    hide Prefixed;
    all := permutations;
    var j := 0;
    while j < |others|
      invariant j <= |others|
      invariant all == permutations + Prefixed(removed, others)[..j]
    {
      assert Prefixed(removed, others)[..j + 1] == Prefixed(removed, others)[..j] + [[removed] + others[j]];
      all := all + [[removed] + others[j]];
      j := j + 1;
    }
  }

  method Permutations<T>(s: seq<T>) returns (permutations: seq<seq<T>>)
    ensures permutations == All(s)
    decreases |s|
  {
    if |s| <= 2 {
      permutations := [s];
      if |s| == 2 {
        permutations := permutations + [[s[1], s[0]]];
      }
      return;
    }
    permutations := [];
    var i := 0;
    while true
      invariant i < |s| && permutations == StartingBefore(s, i)
      decreases |s| - i
    {
      var rest := Without(s, i);
      var others := Permutations(rest);
      permutations := PutFirst(permutations, s[i], others);
      i := i + 1;
      if i >= |s| {
        break;
      }
    }
  }

  function Factorial(n: nat): nat {
    if n == 0 then 1 else n * Factorial(n - 1)
  }

  lemma {:induction false} CountOfAll<T>(s: seq<T>)
    ensures |All(s)| == Factorial(|s|)
    decreases |s|, 1, 0
  {
    if |s| <= 2 {
      assert Factorial(0) == 1 && Factorial(1) == 1 && Factorial(2) == 2;
    } else {
      CountBefore(s, |s|);
    }
  }

  lemma {:induction false} CountBefore<T>(s: seq<T>, k: nat)
    requires 2 < |s| && k <= |s|
    ensures |StartingBefore(s, k)| == k * Factorial(|s| - 1)
    decreases |s|, 0, k
  {
    if k > 0 {
      CountBefore(s, k - 1);
      CountOfAll(Without(s, k - 1));
      OneMore(k, Factorial(|s| - 1));
    }
  }

  lemma {:induction false} OneMore(k: nat, n: nat)
    requires k > 0
    ensures (k - 1) * n + n == k * n
  {
  }

  lemma {:induction false} WithoutIsRest<T>(s: seq<T>, i: nat)
    requires i < |s|
    ensures multiset(s) == multiset{s[i]} + multiset(Without(s, i))
  {
    assert s == s[..i] + [s[i]] + s[i + 1..];
  }

  lemma {:induction false} Cancels<T>(x: T, a: multiset<T>, b: multiset<T>)
    requires multiset{x} + a == multiset{x} + b
    ensures a == b
  {
    forall y ensures a[y] == b[y] {
      assert (multiset{x} + a)[y] == (multiset{x} + b)[y];
    }
  }

  // Only orderings

  lemma {:induction false} OnlyOrderings<T>(s: seq<T>, p: seq<T>)
    requires p in All(s)
    ensures multiset(p) == multiset(s)
    decreases |s|, 1, 0
  {
    if |s| == 2 {
      assert s == [s[0], s[1]];
    } else if |s| > 2 {
      OnlyOrderingsBefore(s, |s|, p);
    }
  }

  lemma {:induction false} OnlyOrderingsBefore<T>(s: seq<T>, k: nat, p: seq<T>)
    requires 2 < |s| && k <= |s| && p in StartingBefore(s, k)
    ensures multiset(p) == multiset(s)
    decreases |s|, 0, k
  {
    if p in StartingBefore(s, k - 1) {
      OnlyOrderingsBefore(s, k - 1, p);
    } else {
      var ps := All(Without(s, k - 1));
      var j :| 0 <= j < |ps| && p == [s[k - 1]] + ps[j];
      OnlyOrderings(Without(s, k - 1), ps[j]);
      WithoutIsRest(s, k - 1);
    }
  }

  // Every ordering

  lemma {:induction false} EveryOrdering<T>(s: seq<T>, p: seq<T>)
    requires multiset(p) == multiset(s)
    ensures p in All(s)
    decreases |s|
  {
    SameLength(p, s);
    if |s| <= 2 {
      FewOrderings(s, p);
    } else {
      hide All, Without;
      var i := HeadRemoved(s, p);
      EveryOrdering(Without(s, i), p[1..]);
      StartsWithAny(s, i, p[1..]);
      assert p == [s[i]] + p[1..];
    }
  }

  lemma {:induction false} HeadRemoved<T>(s: seq<T>, p: seq<T>) returns (i: nat)
    requires multiset(p) == multiset(s) && p != []
    ensures i < |s| && s[i] == p[0]
    ensures |Without(s, i)| == |s| - 1 && multiset(p[1..]) == multiset(Without(s, i))
  {
    assert p[0] in multiset(s);
    i :| 0 <= i < |s| && s[i] == p[0];
    WithoutIsRest(s, i);
    WithoutIsRest(p, 0);
    assert Without(p, 0) == p[1..];
    Cancels(s[i], multiset(p[1..]), multiset(Without(s, i)));
  }

  lemma {:induction false} FewOrderings<T>(s: seq<T>, p: seq<T>)
    requires multiset(p) == multiset(s) && |p| == |s| <= 2
    ensures p in All(s)
  {
    if |s| == 0 {
      assert p == s;
    } else if |s| == 1 {
      assert p[0] in multiset(s) && s == [s[0]] && p == [p[0]];
    } else {
      TwoOrders(s, p);
    }
  }

  lemma {:induction false} StartsWithAny<T>(s: seq<T>, i: nat, q: seq<T>)
    requires i < |s| && 2 < |s| && q in All(Without(s, i))
    ensures [s[i]] + q in All(s)
  {
    var ps := All(Without(s, i));
    var j :| 0 <= j < |ps| && ps[j] == q;
    assert Prefixed(s[i], ps)[j] == [s[i]] + q;
    assert [s[i]] + q in StartingBefore(s, i + 1);
    Grows(s, i + 1, |s|, [s[i]] + q);
  }

  lemma {:induction false} SameLength<T>(a: seq<T>, b: seq<T>)
    requires multiset(a) == multiset(b)
    ensures |a| == |b|
  {
    assert |multiset(a)| == |a| && |multiset(b)| == |b|;
  }

  lemma {:induction false} TwoOrders<T>(s: seq<T>, p: seq<T>)
    requires |s| == 2 && |p| == 2 && multiset(p) == multiset(s)
    ensures p == s || p == [s[1], s[0]]
  {
    assert s == [s[0], s[1]] && p == [p[0], p[1]];
    assert p[0] in multiset(s) && p[1] in multiset(s) && s[0] in multiset(p) && s[1] in multiset(p);
    if p[0] == s[0] {
      assert multiset{p[1]} == multiset(p) - multiset{p[0]} == multiset(s) - multiset{s[0]} == multiset{s[1]};
      assert p[1] in multiset{s[1]};
    } else {
      assert p[0] == s[1];
      assert multiset{p[1]} == multiset(p) - multiset{p[0]} == multiset(s) - multiset{s[1]} == multiset{s[0]};
      assert p[1] in multiset{s[0]};
    }
  }

  lemma {:induction false} Grows<T>(s: seq<T>, j: nat, k: nat, p: seq<T>)
    requires 2 < |s| && j <= k <= |s| && p in StartingBefore(s, j)
    ensures p in StartingBefore(s, k)
    decreases k
  {
    if j < k {
      Grows(s, j, k - 1, p);
    }
  }

  // Each once, exactly when the elements are distinct

  predicate Distinct<T(==)>(s: seq<T>) {
    forall i, j :: 0 <= i < j < |s| ==> s[i] != s[j]
  }

  lemma {:induction false} EachOnce<T>(s: seq<T>)
    requires Distinct(s)
    ensures Distinct(All(s))
    decreases |s|, 1, 0
  {
    if |s| == 2 {
      assert s[0] != s[1] && s[0] != [s[1], s[0]][0];
    } else if |s| > 2 {
      EachOnceBefore(s, |s|);
    }
  }

  lemma {:induction false} EachOnceBefore<T>(s: seq<T>, k: nat)
    requires Distinct(s) && 2 < |s| && k <= |s|
    ensures Distinct(StartingBefore(s, k))
    ensures forall p :: p in StartingBefore(s, k) ==> p != [] && p[0] in s[..k]
    decreases |s|, 0, k
  {
    if k > 0 {
      EachOnceBefore(s, k - 1);
      var x, rest := s[k - 1], Without(s, k - 1);
      EachOnce(rest);
      var a, b := StartingBefore(s, k - 1), Prefixed(x, All(rest));
      forall i, j | 0 <= i < j < |b| ensures b[i] != b[j] {
        assert b[i][1..] == All(rest)[i] && b[j][1..] == All(rest)[j];
      }
      forall i, j | 0 <= i < |a| && 0 <= j < |b| ensures a[i] != b[j] {
        assert a[i] in a && a[i][0] in s[..k - 1] && b[j][0] == x;
      }
      assert s[..k] == s[..k - 1] + [x];
    }
  }

  /** Some element comes twice, and so does some ordering. */
  lemma {:induction false} NotOnce<T>(s: seq<T>, a: nat, b: nat) returns (i: nat, j: nat)
    requires a < b < |s| && s[a] == s[b]
    ensures i < j < |All(s)| && All(s)[i] == All(s)[j]
    decreases |s|
  {
    if |s| == 2 {
      assert s == [s[1], s[0]];
      i, j := 0, 1;
    } else {
      var k: nat := if a > 0 then 0 else if b > 1 then 1 else 2;
      var rest := Without(s, k);
      var a': nat, b': nat := if k < a then a - 1 else a, if k < b then b - 1 else b;
      assert rest[a'] == s[a] && rest[b'] == s[b];
      var x, y := NotOnce(rest, a', b');
      i, j := TwiceInPart(s, k, x, y);
    }
  }

  lemma {:induction false} TwiceInPart<T>(s: seq<T>, k: nat, x: nat, y: nat) returns (i: nat, j: nat)
    requires 2 < |s| && k < |s|
    requires x < y < |All(Without(s, k))| && All(Without(s, k))[x] == All(Without(s, k))[y]
    ensures i < j < |All(s)| && All(s)[i] == All(s)[j]
  {
    var before := StartingBefore(s, k);
    var part := Prefixed(s[k], All(Without(s, k)));
    i, j := |before| + x, |before| + y;
    var both := before + part;
    assert StartingBefore(s, k + 1) == both && both[i] == part[x] && both[j] == part[y];
    Prefix(s, k + 1, |s|);
    assert both <= All(s);
  }

  lemma {:induction false} Prefix<T>(s: seq<T>, j: nat, k: nat)
    requires 2 < |s| && j <= k <= |s|
    ensures StartingBefore(s, j) <= StartingBefore(s, k)
    decreases k
  {
    if j < k {
      Prefix(s, j, k - 1);
    }
  }

  /** All orderings of the list and nothing else, n! of them, each once exactly when the elements are distinct. */
  lemma {:induction false} AllOrderings<T>(s: seq<T>)
    ensures forall p :: p in All(s) <==> multiset(p) == multiset(s)
    ensures |All(s)| == Factorial(|s|)
    ensures Distinct(All(s)) <==> Distinct(s)
  {
    forall p ensures p in All(s) <==> multiset(p) == multiset(s) {
      if p in All(s) {
        OnlyOrderings(s, p);
      }
      if multiset(p) == multiset(s) {
        EveryOrdering(s, p);
      }
    }
    CountOfAll(s);
    if Distinct(s) {
      EachOnce(s);
    } else {
      var a: nat, b: nat :| a < b < |s| && s[a] == s[b];
      var i, j := NotOnce(s, a, b);
    }
  }
}
