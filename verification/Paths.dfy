/**
 `normalize`, `rel` and `combine` of Base/Path.php.
 */
module Paths {
  import opened Wrappers
  import opened DotSegments

  function WithSlashes(path: string): (r: string)
    ensures |r| == |path| && forall i :: 0 <= i < |path| ==> r[i] == if path[i] == '\\' then '/' else path[i]
  {
    if path == "" then "" else [if path[0] == '\\' then '/' else path[0]] + WithSlashes(path[1..])
  }

  predicate IsSlash(c: char) {
    c == '/' || c == '\\'
  }

  function TrimRight(s: string): (r: string)
    ensures r <= s && (r != "" ==> !IsSlash(r[|r| - 1]))
  {
    if s != "" && IsSlash(s[|s| - 1]) then TrimRight(s[..|s| - 1]) else s
  }

  function TrimLeft(s: string): (r: string)
    ensures r != "" ==> r[0] != '/'
  {
    if s != "" && s[0] == '/' then TrimLeft(s[1..]) else s
  }

  function Normalized(path: string): string {
    if path == "" || WithSlashes(path) == "/" then WithSlashes(path)
    else TrimRight(Removed(WithSlashes(path)))
  }

  /** None stands for the exception: the path does not start with the base path. */
  function Rel(basePath: string, path: string): Option<string> {
    var p, b := Normalized(path), Normalized(basePath);
    if p == "" then Some(b)
    else if b == "" then Some(p)
    else if !(b <= p) then None
    else if |p| == |b| then Some("")
    else Some(p[|b| + 1..])
  }

  // What `combine` keeps while it goes through the paths.
  datatype Combined = Combined(result: string, prev: Option<string>)

  function Combine1(c: Combined, path: string): Combined {
    if path == "" then c
    else if path == "/" || path == "\\" then
      if c.prev.Some? then c else Combined(path, Some(path))
    else if c.prev.Some? then
      var last := c.prev.value;
      var glue := if last != "" && IsSlash(last[|last| - 1]) then "" else "/";
      Combined(c.result + glue + TrimLeft(path), Some(path))
    else Combined(c.result + path, Some(path))
  }

  function CombineAll(c: Combined, paths: seq<string>): Combined
    decreases |paths|
  {
    if paths == [] then c else CombineAll(Combine1(c, paths[0]), paths[1..])
  }

  const Nothing := Combined("", None)

  function Combine(paths: seq<string>): string {
    CombineAll(Nothing, paths).result
  }

  method CombinePaths(paths: seq<string>) returns (result: string)
    ensures result == Combine(paths)
  {
    result := "";
    var prev: Option<string> := None;
    var i := 0;
    while i < |paths|
      invariant i <= |paths|
      invariant CombineAll(Combined(result, prev), paths[i..]) == CombineAll(Nothing, paths)
    {
      var path := paths[i];
      assert paths[i..][0] == path && paths[i..][1..] == paths[i + 1..];
      i := i + 1;
      if path == "" {
        continue;
      }
      if path == "/" || path == "\\" {
        if prev.Some? {
          continue;
        }
        result := path;
      } else if prev.Some? {
        var last := prev.value;
        result := result + (if last != "" && IsSlash(last[|last| - 1]) then "" else "/") + TrimLeft(path);
      } else {
        result := result + path;
      }
      prev := Some(path);
    }
  }

  // Combining part by part

  function EndsInSlash(s: string): bool {
    s != "" && IsSlash(s[|s| - 1])
  }

  /** Only whether the text so far is empty and ends in a slash matters for what follows. */
  predicate Alike(c: Combined, d: Combined) {
    && c.result == d.result && (c.prev.Some? <==> d.prev.Some?)
    && (c.prev.Some? ==> EndsInSlash(c.prev.value) == EndsInSlash(d.prev.value) == EndsInSlash(c.result))
    && (c.prev.None? ==> c.result == "")
    && (c.prev.Some? ==> c.result != "")
  }

  lemma {:induction false} TrimLeftEnd(s: string)
    ensures TrimLeft(s) != "" ==> EndsInSlash(TrimLeft(s)) == EndsInSlash(s)
    ensures TrimLeft(s) == "" && s != "" ==> EndsInSlash(s)
  {
    if s != "" && s[0] == '/' {
      TrimLeftEnd(s[1..]);
    }
  }

  lemma {:induction false} StaysAlike(c: Combined, d: Combined, path: string)
    requires Alike(c, d)
    ensures Alike(Combine1(c, path), Combine1(d, path))
  {
    TrimLeftEnd(path);
  }

  lemma {:induction false} EndAlike(c: Combined, d: Combined, paths: seq<string>)
    requires Alike(c, d)
    ensures Alike(CombineAll(c, paths), CombineAll(d, paths))
    decreases |paths|
  {
    if paths != [] {
      StaysAlike(c, d, paths[0]);
      EndAlike(Combine1(c, paths[0]), Combine1(d, paths[0]), paths[1..]);
    }
  }

  lemma {:induction false} CombineTwice(c: Combined, a: seq<string>, b: seq<string>)
    ensures CombineAll(c, a + b) == CombineAll(CombineAll(c, a), b)
    decreases |a|
  {
    if a == [] {
      assert a + b == b;
    } else {
      assert (a + b)[0] == a[0] && (a + b)[1..] == a[1..] + b;
      CombineTwice(Combine1(c, a[0]), a[1..], b);
    }
  }

  /** What is combined may be combined first in part. */
  lemma {:induction false} CombineIsAssociative(a: seq<string>, b: seq<string>)
    ensures Combine(a + b) == Combine([Combine(a)] + b)
  {
    var first := CombineAll(Nothing, a);
    var again := Combine1(Nothing, first.result);
    CombineTwice(Nothing, a, b);
    EndAlike(Nothing, Nothing, a);
    assert ([Combine(a)] + b)[0] == first.result && ([Combine(a)] + b)[1..] == b;
    assert "" + first.result == first.result;
    EndAlike(first, again, b);
  }

  // rel and combine

  lemma {:induction false} CombineTwo(b: string, r: string)
    requires b != ""
    ensures r == "" || r == "/" || r == "\\" ==> Combine([b, r]) == b
    ensures r != "" && r != "/" && r != "\\" ==>
              Combine([b, r]) == b + (if EndsInSlash(b) then "" else "/") + TrimLeft(r)
  {
    var c := Combine1(Nothing, b);
    assert "" + b == b && c == Combined(b, Some(b));
    assert [b, r][1..] == [r] && [r][1..] == [];
    assert CombineAll(c, [r]) == Combine1(c, r);
  }

  /** What is left of the path after the base path and one more character. */
  function Cut(b: string, p: string): string
    requires b <= p
  {
    if |p| == |b| then "" else p[|b| + 1..]
  }

  lemma {:induction false} CutThenCombine(b: string, p: string)
    requires b != "" && b <= p && (p != "/" ==> !EndsInSlash(p)) && (b != "/" ==> !EndsInSlash(b))
    ensures Combine([b, Cut(b, p)]) == p <==>
            p == b || (p[|b|] == '/' && b != "/" && p[|b| + 1..] != "" && p[|b| + 1] != '/')
  {
    hide Combine, TrimLeft;
    var r := Cut(b, p);
    CombineTwo(b, r);
    if |p| == |b| {
      assert p == b;
    } else {
      assert p == b + [p[|b|]] + r;
      if r != "" {
        assert r[|r| - 1] == p[|p| - 1] && !IsSlash(p[|p| - 1]);
        assert r != "/" && r != "\\" by { assert IsSlash("/"[0]) && IsSlash("\\"[0]); }
        Glued(b, p[|b|], r);
        assert b == "/" ==> EndsInSlash(b);
      }
    }
  }

  lemma {:induction false} CombineWithEmpty(b: string)
    ensures Combine(["", b]) == b && (Combine([b, b]) == "" <==> b == "")
  {
    assert ["", b][1..] == [b] && [b][1..] == [] && [b, b][1..] == [b];
    var c := Combine1(Nothing, b);
    assert "" + b == b && c.result == b;
    assert CombineAll(Nothing, [b]) == c && CombineAll(Nothing, ["", b]) == CombineAll(Nothing, [b]);
    if b == "" {
      assert CombineAll(Nothing, [b, b]) == c;
    } else {
      CombineTwo(b, b);
    }
  }

  /**
   Combining the base path with the relative one gives the path back exactly where
   the base is empty or nothing but one slash is cut. An empty path is not one
   of those: for it `rel` gives the base itself.
   */
  lemma {:induction false} RelThenCombine(basePath: string, path: string)
    ensures var p, b := Normalized(path), Normalized(basePath);
            var r := Rel(basePath, path);
            && (r.Some? <==> p == "" || b <= p)
            && (r.Some? ==>
                  (Combine([b, r.value]) == p <==>
                   || b == "" || p == b
                   || (|b| + 1 < |p| && p[|b|] == '/' && b != "/" && p[|b| + 1] != '/')))
  {
    var p, b := Normalized(path), Normalized(basePath);
    NormalEnd(path);
    NormalEnd(basePath);
    hide Normalized, Combine;
    if p == "" || b == "" {
      CombineWithEmpty(b);
      CombineWithEmpty(p);
    } else if b <= p {
      CutThenCombine(b, p);
    }
  }

  lemma {:induction false} PlainIsNormal(s: string)
    requires s != "" && '.' !in s && '\\' !in s && s[|s| - 1] != '/'
    ensures Normalized(s) == s
  {
    SlashesStay(s);
  }

  lemma {:induction false} RelOfNormal(b: string, p: string)
    requires Normalized(b) == b != "" && Normalized(p) == p != ""
    ensures b <= p && b != p ==> Rel(b, p) == Some(p[|b| + 1..])
  {
    hide Normalized;
  }

  /** The base need not end at a segment: `/ab` lies in `/a`, relative to which it is empty. */
  lemma {:induction false} RelCutsASegment()
    ensures Rel("/a", "/ab") == Some("") && Combine([Normalized("/a"), ""]) == "/a" != Normalized("/ab") == "/ab"
  {
    hide *;
    PlainIsNormal("/a");
    PlainIsNormal("/ab");
    CombineTwo("/a", "");
    RelOfNormal("/a", "/ab");
    assert "/a" == "/ab"[..2] && "/ab"[3..] == "";
  }

  lemma {:induction false} Glued(b: string, c: char, r: string)
    requires r != ""
    ensures b + "/" + TrimLeft(r) == b + [c] + r <==> c == '/' && r[0] != '/'
    ensures b + "" + TrimLeft(r) != b + [c] + r
  {
    TrimLeftShrinks(r);
    var x, y := b + "/" + TrimLeft(r), b + [c] + r;
    assert x[|b|] == '/' && y[|b|] == c && x[|b| + 1..] == TrimLeft(r) && y[|b| + 1..] == r;
  }

  lemma {:induction false} TrimLeftShrinks(s: string)
    ensures |TrimLeft(s)| <= |s| && (TrimLeft(s) == s <==> s == "" || s[0] != '/')
  {
    if s != "" && s[0] == '/' {
      TrimLeftShrinks(s[1..]);
    }
  }

  /** A normal path other than `/` has no slash at its end. */
  lemma {:induction false} NormalEnd(path: string)
    ensures Normalized(path) != "" && Normalized(path) != "/" ==> !EndsInSlash(Normalized(path))
  {
    hide Removed, WithSlashes, TrimRight;
    if path == "" || WithSlashes(path) == "/" {
      assert Normalized(path) == "" || Normalized(path) == "/";
    }
  }

  // normalize twice

  lemma {:induction false} RewriteAddsNothing(result: string, path: string, c: char)
    requires c != '/' && c !in result && c !in path
    ensures c !in Rewrite(result, path)
    decreases |path|
  {
    var popped := Popped(result);
    assert c !in popped;
    if path == "" || path == "0" || path == ".." || path == "." {
    } else if path == "/." {
      RewriteAddsNothing(result, "/", c);
    } else if path == "/.." {
      RewriteAddsNothing(popped, "/", c);
    } else if StartsWith(path, "/../") {
      RewriteAddsNothing(popped, "/" + path[4..], c);
    } else if StartsWith(path, "/./") || StartsWith(path, "./") {
      RewriteAddsNothing(result, path[2..], c);
    } else if StartsWith(path, "../") {
      RewriteAddsNothing(result, path[3..], c);
    } else {
      var slash := NextSlash(path, 1);
      RewriteAddsNothing(result + path[..slash], path[slash..], c);
    }
  }

  lemma {:induction false} SlashesStay(s: string)
    requires '\\' !in s
    ensures WithSlashes(s) == s
  {
    if s != "" {
      SlashesStay(s[1..]);
    }
  }

  /** The segments up to the last that is not empty. */
  function Trimmed(stack: seq<string>): seq<string> {
    if stack != [] && stack[|stack| - 1] == "" then Trimmed(stack[..|stack| - 1]) else stack
  }

  /** Trimming takes empty segments from the end. */
  lemma {:induction false} TrimsSegments(pre: string, stack: seq<string>) returns (left: seq<string>)
    requires '/' !in pre && '\\' !in pre + Join(stack) && Slashless(stack) && DotFree(stack)
    ensures left == Trimmed(stack) && TrimRight(pre + Join(stack)) == pre + Join(left)
    ensures Slashless(left) && DotFree(left)
    decreases |stack|
  {
    hide Join;
    left := stack;
    JoinOfNone();
    assert pre + "" == pre;
    if stack != [] {
      var below, top := stack[..|stack| - 1], stack[|stack| - 1];
      assert stack == below + [top];
      JoinAppend(below, top);
      var s := pre + Join(stack);
      assert s == (pre + Join(below)) + ("/" + top);
      if top == "" {
        assert s[..|s| - 1] == pre + Join(below);
        left := TrimsSegments(pre, below);
      } else {
        assert s[|s| - 1] == top[|top| - 1] && s[|s| - 1] in s;
      }
    } else if pre != "" {
      assert pre[|pre| - 1] in pre;
    }
  }

  lemma {:induction false} JoinOfNone()
    ensures Join([]) == ""
  {
  }

  /** A first segment that is no dot segment, and a stack without dot segments, are copied. */
  lemma {:induction false} CleanPathsStay(head: string, stack: seq<string>)
    requires '/' !in head && !IsDot(head) && Slashless(stack) && DotFree(stack)
    ensures Removed(head + Join(stack)) == head + Join(stack)
  {
    var path := head + Join(stack);
    JoinOfNone();
    if '.' in path {
      assert path != "0";
      assert "" + Join(stack) == Join(stack) && head + "" == head;
      Unchanged(head, stack);
      if head != "" {
        if stack == [] {
          assert path == head;
          NoSlash(head);
        } else {
          HeadAndBody(head, Join(stack));
          NotZero(head, Join(stack));
        }
        PlainPath(head, Join(stack));
        PlainStep(path);
      }
    }
  }

  lemma {:induction false} NotZero(head: string, rest: string)
    requires head != "" && rest != ""
    ensures head + rest != "0"
  {
    assert |head + rest| >= 2;
  }

  /** Normalizing again changes nothing. */
  lemma {:induction false} NormalizedTwice(path: string)
    ensures Normalized(Normalized(path)) == Normalized(path)
  {
    var q := WithSlashes(path);
    var r := Normalized(path);
    if path != "" && q != "/" {
      assert '\\' !in q;
      var x := Removed(q);
      RewriteAddsNothing("", q, '\\');
      TrimmedIsClean(q);
      assert '\\' !in r;
      SlashesStay(r);
      TrimTwice(x);
    }
  }

  /** An absolute path becomes the stack of its segments, without the empty ones at its end. */
  lemma {:induction false} NormalizedIsTheStack(path: string)
    requires var q := WithSlashes(path); q != "" && q != "/" && q[0] == '/'
    ensures Normalized(path) == Join(Trimmed(Stacked([], Split(WithSlashes(path)))))
  {
    hide Join, Stacked, Split, WithSlashes, Removed, Trimmed;
    var q := WithSlashes(path);
    var stack := Stacked([], Split(q));
    NoBackslash(path);
    RemovedAddsNothing(q, '\\');
    AbsolutePathsAgree(q);
    NoSegments();
    StackedKeeps([], Split(q));
    assert "" + Join(stack) == Join(stack) && "" + Join(Trimmed(stack)) == Join(Trimmed(stack));
    var left := TrimsSegments("", stack);
    EmptyPath(path);
  }

  lemma {:induction false} EmptyPath(path: string)
    ensures path == "" <==> WithSlashes(path) == ""
  {
  }

  lemma {:induction false} NoBackslash(path: string)
    ensures '\\' !in WithSlashes(path)
  {
    var q := WithSlashes(path);
    assert forall i :: 0 <= i < |q| ==> q[i] != '\\';
  }

  lemma {:induction false} RemovedAddsNothing(q: string, c: char)
    requires c != '/' && c !in q
    ensures c !in Removed(q)
  {
    if '.' in q {
      RewriteAddsNothing("", q, c);
    }
  }

  /** Of any path but `/`, only slashes at its end are lost after dot segments, and all of them. */
  lemma {:induction false} NormalizedLosesSlashes(path: string)
    requires WithSlashes(path) != "/"
    ensures var r, x := Normalized(path), Removed(WithSlashes(path));
            r <= x && (forall i :: |r| <= i < |x| ==> x[i] == '/') && !EndsInSlash(r)
  {
    hide Removed, WithSlashes;
    var x := Removed(WithSlashes(path));
    NoBackslash(path);
    RemovedAddsNothing(WithSlashes(path), '\\');
    TrimsSlashes(x);
    EmptyPath(path);
    if path == "" {
      NothingRemoved();
    }
  }

  lemma {:induction false} NothingRemoved()
    ensures Removed("") == ""
  {
  }

  lemma {:induction false} TrimsSlashes(s: string)
    ensures forall i :: |TrimRight(s)| <= i < |s| ==> IsSlash(s[i])
    decreases |s|
  {
    if s != "" && IsSlash(s[|s| - 1]) {
      TrimsSlashes(s[..|s| - 1]);
    }
  }

  lemma {:induction false} TrimTwice(s: string)
    ensures TrimRight(TrimRight(s)) == TrimRight(s)
    decreases |s|
  {
    if s != "" && IsSlash(s[|s| - 1]) {
      TrimTwice(s[..|s| - 1]);
    }
  }

  lemma {:induction false} TrimmedIsClean(q: string)
    requires '\\' !in q
    ensures Removed(TrimRight(Removed(q))) == TrimRight(Removed(q))
  {
    var r := TrimRight(Removed(q));
    if '.' in q {
      RewriteAddsNothing("", q, '\\');
      var rest := Stripped(q);
      Strips(q);
      StrippedTwice(q);
      DotStart();
      if rest != "" && rest[0] == '/' {
        AbsoluteIsClean(rest);
      } else if rest != "" && !IsDot(rest) {
        RelativeIsClean(rest);
      }
    } else {
      assert '.' !in r;
    }
  }

  lemma {:induction false} AbsoluteIsClean(rest: string)
    requires rest != "" && rest[0] == '/' && '\\' !in Rewrite("", rest)
    ensures Removed(TrimRight(Rewrite("", rest))) == TrimRight(Rewrite("", rest))
  {
    hide Removed, Stacked, Rewrite;
    var segments := Split(rest);
    var stack := Stacked([], segments);
    JoinOfNone();
    assert "" + Join(stack) == Join(stack) && "" + Join([]) == "";
    RewriteRefines("", [], segments);
    NoSegments();
    StackedKeeps([], segments);
    var left := TrimsSegments("", stack);
    CleanPathsStay("", left);
  }

  lemma {:induction false} RelativeIsClean(rest: string)
    requires Plain(rest) && '\\' !in Rewrite("", rest)
    ensures Removed(TrimRight(Rewrite("", rest))) == TrimRight(Rewrite("", rest))
  {
    PlainPaths(rest);
    if rest != "0" {
      var stack := Stacked([], Split(Body(rest)));
      NoSegments();
      StackedKeeps([], Split(Body(rest)));
      var left := TrimsSegments(Head(rest), stack);
      HeadIsFirst(rest);
      CleanPathsStay(Head(rest), left);
    }
  }
}
