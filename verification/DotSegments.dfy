/**
 `Path::removeDotSegments` of Base/Path.php: a character-rewriting loop, next to
 the algorithm of section 5.2.4 of RFC 3986 and to a stack of segments.
 */
module DotSegments {
  import opened Wrappers

  predicate StartsWith(s: string, prefix: string) {
    prefix <= s
  }

  /** `lastPos` of Base/index.php for a one-character needle; the offset -1 still searches the whole string. */
  function LastPos(s: string, c: char): (r: Option<nat>)
    ensures r.None? <==> c !in s
    ensures r.Some? ==> r.value < |s| && s[r.value] == c && forall i :: r.value < i < |s| ==> s[i] != c
  {
    if s == "" then None
    else if s[|s| - 1] == c then Some(|s| - 1)
    else
      var before := s[..|s| - 1];
      assert forall i :: 0 <= i < |s| - 1 ==> s[i] == before[i];
      LastPos(before, c)
  }

  /** The first slash at `from` or after it, or the length of the string. */
  function NextSlash(s: string, from: nat): (r: nat)
    requires from <= |s|
    ensures from <= r <= |s| && '/' !in s[from..r]
    ensures r < |s| ==> s[r] == '/'
    decreases |s| - from
  {
    if from == |s| || s[from] == '/' then from
    else
      var r := NextSlash(s, from + 1);
      assert s[from..r] == [s[from]] + s[from + 1..r];
      r
  }

  // What `..` leaves of the result: it stays as it is when it has no slash.
  function Popped(result: string): string {
    var slash := LastPos(result, '/');
    if slash.None? then result else result[..slash.value]
  }

  /** The loop, from the result so far and the rest of the path; the string "0" ends it too. */
  function Rewrite(result: string, path: string): string
    decreases |path|
  {
    if path == "" || path == "0" || path == ".." || path == "." then result
    else if path == "/." then Rewrite(result, "/")
    else if path == "/.." then Rewrite(Popped(result), "/")
    else if StartsWith(path, "/../") then Rewrite(Popped(result), "/" + path[4..])
    else if StartsWith(path, "/./") then Rewrite(result, path[2..])
    else if StartsWith(path, "./") then Rewrite(result, path[2..])
    else if StartsWith(path, "../") then Rewrite(result, path[3..])
    else
      var slash := NextSlash(path, 1);
      Rewrite(result + path[..slash], path[slash..])
  }

  function Removed(path: string): string {
    if '.' !in path then path else Rewrite("", path)
  }

  method RemoveDotSegments(path: string) returns (result: string)
    ensures result == Removed(path)
  {
    if '.' !in path {
      return path;
    }
    result := "";
    var rest := path;
    while rest != "" && rest != "0"
      invariant Rewrite(result, rest) == Rewrite("", path)
      decreases |rest|
    {
      if rest == ".." || rest == "." {
        break;
      }
      if rest == "/." {
        rest := "/";
      } else if rest == "/.." {
        rest := "/";
        var slash := LastPos(result, '/');
        if slash.Some? {
          result := result[..slash.value];
        }
      } else if StartsWith(rest, "/../") {
        rest := "/" + rest[4..];
        var slash := LastPos(result, '/');
        if slash.Some? {
          result := result[..slash.value];
        }
      } else if StartsWith(rest, "/./") {
        rest := rest[2..];
      } else if StartsWith(rest, "./") {
        rest := rest[2..];
      } else if StartsWith(rest, "../") {
        rest := rest[3..];
      } else {
        var slash := NextSlash(rest, 1);
        result, rest := result + rest[..slash], rest[slash..];
      }
    }
  }

  // Section 5.2.4 of RFC 3986, step by step.

  // "Remove the last segment and its preceding slash (if any)".
  function LastSegmentRemoved(output: string): string {
    var slash := LastPos(output, '/');
    if slash.None? then "" else output[..slash.value]
  }

  function Rfc3986(output: string, input: string): string
    decreases |input|
  {
    if input == "" then output
    else if StartsWith(input, "../") then Rfc3986(output, input[3..])
    else if StartsWith(input, "./") then Rfc3986(output, input[2..])
    else if StartsWith(input, "/./") then Rfc3986(output, "/" + input[3..])
    else if input == "/." then Rfc3986(output, "/")
    else if StartsWith(input, "/../") then Rfc3986(LastSegmentRemoved(output), "/" + input[4..])
    else if input == "/.." then Rfc3986(LastSegmentRemoved(output), "/")
    else if input == "." || input == ".." then Rfc3986(output, "")
    else
      var slash := NextSlash(input, 1);
      Rfc3986(output + input[..slash], input[slash..])
  }

  // The stack of segments. A path that is empty or starts with a slash is a list of
  // segments without slashes, each written after a slash.

  predicate Slashless(segments: seq<string>) {
    forall i :: 0 <= i < |segments| ==> '/' !in segments[i]
  }

  predicate IsDot(s: string) {
    s == "." || s == ".."
  }

  predicate DotFree(segments: seq<string>) {
    forall i :: 0 <= i < |segments| ==> !IsDot(segments[i])
  }

  function Join(segments: seq<string>): (s: string)
    ensures s == "" <==> segments == []
    ensures s != "" ==> s[0] == '/'
  {
    if segments == [] then "" else "/" + segments[0] + Join(segments[1..])
  }

  function Split(path: string): (segments: seq<string>)
    requires path == "" || path[0] == '/'
    ensures Slashless(segments) && Join(segments) == path
    decreases |path|
  {
    if path == "" then []
    else
      var slash := NextSlash(path, 1);
      assert path == "/" + path[1..slash] + path[slash..];
      [path[1..slash]] + Split(path[slash..])
  }

  function Pop(stack: seq<string>): seq<string> {
    if stack == [] then [] else stack[..|stack| - 1]
  }

  /** The stack after one segment. */
  function Top(stack: seq<string>, segment: string): seq<string> {
    if segment == "." then stack else if segment == ".." then Pop(stack) else stack + [segment]
  }

  /** `.` adds nothing and `..` removes the top; as the last segment they leave a trailing slash. */
  function Stacked(stack: seq<string>, segments: seq<string>): seq<string>
    decreases |segments|
  {
    if segments == [] then stack
    else
      var top := Top(stack, segments[0]);
      if |segments| == 1 && IsDot(segments[0]) then top + [""] else Stacked(top, segments[1..])
  }

  /** Some `..` finds the stack empty. */
  predicate Underflows(depth: nat, segments: seq<string>)
    decreases |segments|
  {
    segments != [] &&
    if segments[0] == ".." then depth == 0 || Underflows(depth - 1, segments[1..])
    else Underflows(if segments[0] == "." then depth else depth + 1, segments[1..])
  }

  // Facts about joined segments

  lemma {:induction false} JoinAppend(a: seq<string>, s: string)
    ensures Join(a + [s]) == Join(a) + "/" + s
  {
    if a == [] {
      assert [s][1..] == [];
    } else {
      assert (a + [s])[1..] == a[1..] + [s];
      JoinAppend(a[1..], s);
    }
  }

  lemma {:induction false} SplitJoin(segments: seq<string>)
    requires Slashless(segments)
    ensures Split(Join(segments)) == segments
  {
    if segments != [] {
      FirstSegment(segments);
      SplitJoin(segments[1..]);
    }
  }

  /** Where the first segment ends in a joined path. */
  lemma {:induction false} FirstSegment(segments: seq<string>)
    requires segments != [] && Slashless(segments)
    ensures var path := Join(segments);
            && NextSlash(path, 1) == |segments[0]| + 1
            && path[1..|segments[0]| + 1] == segments[0]
            && path[..|segments[0]| + 1] == "/" + segments[0]
            && path[|segments[0]| + 1..] == Join(segments[1..])
  {
    var path := Join(segments);
    var rest := Join(segments[1..]);
    var k := |segments[0]| + 1;
    assert path == ("/" + segments[0]) + rest;
    assert path[1..k] == segments[0];
    var n := NextSlash(path, 1);
    assert forall i :: 1 <= i < k ==> path[i] == segments[0][i - 1];
    assert rest != "" ==> path[k] == rest[0] == '/';
    assert forall i :: 1 <= i < n ==> path[i] == path[1..n][i - 1];
  }

  lemma {:induction false} Piece(segment: string, rest: string, dots: string)
    requires '/' !in segment && '/' !in dots && (rest == "" || rest[0] == '/')
    ensures ("/" + segment + rest == "/" + dots) <==> (segment == dots && rest == "")
    ensures StartsWith("/" + segment + rest, "/" + dots + "/") <==> (segment == dots && rest != "")
  {
    var path := "/" + segment + rest;
    var start := "/" + dots;
    var more := start + "/";
    assert forall i :: 0 <= i < |segment| ==> path[i + 1] == segment[i];
    assert rest != "" ==> path[|segment| + 1] == '/';
    assert forall i :: 0 <= i < |dots| ==> start[i + 1] == more[i + 1] == dots[i];
    assert more[|dots| + 1] == '/';
    if more <= path {
      assert forall i :: 0 <= i < |more| ==> path[i] == more[i];
      assert |segment| == |dots|;
      assert segment == dots;
    }
    if path == start {
      assert forall i :: 0 <= i < |start| ==> path[i] == start[i];
      assert |segment| == |dots|;
      assert segment == dots;
    }
    if segment == dots && rest != "" {
      assert path[..|dots| + 2] == "/" + dots + "/";
    }
  }

  lemma {:induction false} Literals()
    ensures "/" + "." == "/." && "/" + ".." == "/.."
    ensures "/" + "." + "/" == "/./" && "/" + ".." + "/" == "/../"
  {
  }

  /** Which branch the loop takes on a joined path. */
  lemma {:induction false} Branches(segments: seq<string>)
    requires segments != [] && Slashless(segments)
    ensures var path := Join(segments);
            && (path == "/." <==> segments == ["."])
            && (path == "/.." <==> segments == [".."])
            && (StartsWith(path, "/../") <==> |segments| > 1 && segments[0] == "..")
            && (StartsWith(path, "/./") <==> |segments| > 1 && segments[0] == ".")
  {
    var one, two := ".", "..";
    Branch(segments, one);
    Branch(segments, two);
    Literals();
  }

  lemma {:induction false} Branch(segments: seq<string>, dots: string)
    requires segments != [] && Slashless(segments) && '/' !in dots
    ensures Join(segments) == "/" + dots <==> segments == [dots]
    ensures StartsWith(Join(segments), "/" + dots + "/") <==> |segments| > 1 && segments[0] == dots
  {
    var rest := Join(segments[1..]);
    assert rest == "" <==> |segments| == 1;
    assert |segments| == 1 ==> segments == [segments[0]];
    Piece(segments[0], rest, dots);
  }

  /** The last slash of a result is the one before the top of the stack. */
  lemma {:induction false} PopsTheStack(pre: string, stack: seq<string>)
    requires '/' !in pre && Slashless(stack)
    ensures stack == [] ==> LastPos(pre + Join(stack), '/') == None
    ensures stack != [] ==>
              var slash := LastPos(pre + Join(stack), '/');
              slash.Some? && (pre + Join(stack))[..slash.value] == pre + Join(Pop(stack))
  {
    if stack == [] {
      assert pre + Join(stack) == pre;
    } else {
      var below, top := Pop(stack), stack[|stack| - 1];
      assert stack == below + [top];
      JoinAppend(below, top);
      var s := pre + Join(stack);
      var k := |pre + Join(below)|;
      assert s == (pre + Join(below)) + "/" + top;
      assert s[k] == '/' && s[k + 1..] == top;
      assert forall i :: k < i < |s| ==> s[i] == top[i - k - 1];
    }
  }

  // Both loops against the stack

  lemma {:induction false} StackedKeeps(stack: seq<string>, segments: seq<string>)
    requires Slashless(stack) && Slashless(segments)
    ensures Slashless(Stacked(stack, segments))
    ensures DotFree(stack) ==> DotFree(Stacked(stack, segments))
    ensures segments != [] ==> Stacked(stack, segments) != []
    decreases |segments|
  {
    if segments != [] {
      StackedKeeps(Top(stack, segments[0]), segments[1..]);
    }
  }

  lemma {:induction false} TopIsShort(stack: seq<string>, segment: string)
    ensures |Join(Top(stack, segment))| <= |Join(stack)| + |segment| + 1
    ensures IsDot(segment) ==> |Join(Top(stack, segment))| <= |Join(stack)|
  {
    if segment == ".." && stack != [] {
      JoinAppend(Pop(stack), stack[|stack| - 1]);
      assert stack == Pop(stack) + [stack[|stack| - 1]];
    } else if !IsDot(segment) {
      JoinAppend(stack, segment);
    }
  }

  lemma {:induction false} StackedIsShort(stack: seq<string>, segments: seq<string>)
    ensures |Join(Stacked(stack, segments))| <= |Join(stack)| + |Join(segments)|
    decreases |segments|
  {
    if segments != [] {
      hide Join;
      var top := Top(stack, segments[0]);
      TopIsShort(stack, segments[0]);
      JoinedLength(segments);
      if |segments| == 1 && IsDot(segments[0]) {
        JoinAppend(top, "");
      } else {
        StackedIsShort(top, segments[1..]);
      }
    }
  }

  lemma {:induction false} JoinedLength(segments: seq<string>)
    requires segments != []
    ensures |Join(segments)| == 1 + |segments[0]| + |Join(segments[1..])|
  {
  }

  lemma {:induction false} StackedAdds(stack: seq<string>, segments: seq<string>)
    requires DotFree(segments)
    ensures Stacked(stack, segments) == stack + segments && !Underflows(|stack|, segments)
    decreases |segments|
  {
    if segments != [] {
      StackedAdds(stack + [segments[0]], segments[1..]);
    }
  }

  /** The segments left after one turn of the loop: a last dot segment leaves a slash to be copied. */
  function Tail(segments: seq<string>): (rest: seq<string>)
    requires segments != []
  {
    if |segments| == 1 && IsDot(segments[0]) then [""] else segments[1..]
  }

  lemma {:induction false} Slash()
    ensures Join([""]) == "/"
  {
    assert [""][1..] == [];
    assert Join([]) == "";
  }

  lemma {:induction false} AfterDots(segments: seq<string>)
    requires |segments| > 1
    ensures segments[0] == ".." ==> "/" + Join(segments)[4..] == Join(segments[1..])
    ensures segments[0] == "." ==> Join(segments)[2..] == "/" + Join(segments)[3..] == Join(segments[1..])
  {
    var path, rest := Join(segments), Join(segments[1..]);
    var k := |segments[0]| + 1;
    assert path == ("/" + segments[0]) + rest;
    assert path[k..] == rest && rest == "/" + rest[1..] && path[k + 1..] == rest[1..];
  }

  lemma {:induction false} RewriteStep(result: string, segments: seq<string>)
    requires segments != [] && Slashless(segments)
    ensures Rewrite(result, Join(segments)) == Rewrite(
              if segments[0] == "." then result
              else if segments[0] == ".." then Popped(result)
              else result + ("/" + segments[0]),
              Join(Tail(segments)))
  {
    hide Join, Slashless, Popped;
    Branches(segments);
    FirstSegment(segments);
    Slash();
    if |segments| > 1 {
      AfterDots(segments);
    }
  }

  lemma {:induction false} RewriteRefines(pre: string, stack: seq<string>, segments: seq<string>)
    requires '/' !in pre && Slashless(stack) && Slashless(segments)
    ensures Rewrite(pre + Join(stack), Join(segments))
         == pre + Join(Stacked(stack, segments))
    decreases |segments|, segments != [] && IsDot(segments[0])
  {
    if segments != [] {
      hide Join, Rewrite;
      RewriteStep(pre + Join(stack), segments);
      if segments[0] == "." {
        RewriteRefines(pre, stack, Tail(segments));
      } else if segments[0] == ".." {
        PopsTheStack(pre, stack);
        RewriteRefines(pre, Pop(stack), Tail(segments));
      } else {
        JoinAppend(stack, segments[0]);
        assert pre + (Join(stack) + "/" + segments[0]) == (pre + Join(stack)) + ("/" + segments[0]);
        RewriteRefines(pre, stack + [segments[0]], Tail(segments));
      }
    }
  }

  lemma {:induction false} Rfc3986Step(result: string, segments: seq<string>)
    requires segments != [] && Slashless(segments)
    ensures Rfc3986(result, Join(segments)) == Rfc3986(
              if segments[0] == "." then result
              else if segments[0] == ".." then LastSegmentRemoved(result)
              else result + ("/" + segments[0]),
              Join(Tail(segments)))
  {
    hide Join, Slashless, LastSegmentRemoved;
    Branches(segments);
    FirstSegment(segments);
    Slash();
    if |segments| > 1 {
      AfterDots(segments);
    }
  }

  lemma {:induction false} RfcPops(pre: string, stack: seq<string>)
    requires '/' !in pre && Slashless(stack)
    ensures LastSegmentRemoved(pre + Join(stack)) == (if stack == [] then "" else pre) + Join(Pop(stack))
  {
    PopsTheStack(pre, stack);
  }

  /** What is left of a first segment without a slash: nothing, once `..` has reached it. */
  function Kept(pre: string, depth: nat, segments: seq<string>): string {
    if Underflows(depth, segments) then "" else pre
  }

  lemma {:induction false} OneSegment(pre: string, stack: seq<string>, segments: seq<string>)
    requires segments != []
    ensures Stacked(stack, segments) == Stacked(Top(stack, segments[0]), Tail(segments))
    ensures var left := if segments[0] == ".." && stack == [] then "" else pre;
            Kept(pre, |stack|, segments) == Kept(left, |Top(stack, segments[0])|, Tail(segments))
  {
    var top := Top(stack, segments[0]);
    if |segments| == 1 && IsDot(segments[0]) {
      assert [""][1..] == [] && segments[1..] == [];
      assert !Underflows(|top| + 1, []) && !Underflows(|top|, []) && !Underflows(|top|, [""]);
    }
  }

  lemma {:induction false} Rfc3986Turn(pre: string, stack: seq<string>, segments: seq<string>)
    requires segments != [] && '/' !in pre && Slashless(stack) && Slashless(segments)
    ensures Rfc3986(pre + Join(stack), Join(segments)) == Rfc3986(
              (if segments[0] == ".." && stack == [] then "" else pre) + Join(Top(stack, segments[0])),
              Join(Tail(segments)))
  {
    hide Join, Rfc3986, LastSegmentRemoved, Tail;
    Rfc3986Step(pre + Join(stack), segments);
    if segments[0] == ".." {
      RfcPops(pre, stack);
    } else if segments[0] != "." {
      JoinAppend(stack, segments[0]);
      assert pre + (Join(stack) + "/" + segments[0]) == (pre + Join(stack)) + ("/" + segments[0]);
    }
  }

  lemma {:induction false} Rfc3986Refines(pre: string, stack: seq<string>, segments: seq<string>)
    requires '/' !in pre && Slashless(stack) && Slashless(segments)
    ensures Rfc3986(pre + Join(stack), Join(segments))
         == Kept(pre, |stack|, segments) + Join(Stacked(stack, segments))
    decreases |segments|, segments != [] && IsDot(segments[0])
  {
    if segments != [] {
      hide Join, Rfc3986, Stacked, Kept, Underflows;
      var left := if segments[0] == ".." && stack == [] then "" else pre;
      Rfc3986Turn(pre, stack, segments);
      OneSegment(pre, stack, segments);
      Rfc3986Refines(left, Top(stack, segments[0]), Tail(segments));
    } else {
      assert Join([]) == "";
    }
  }

  // Absolute paths

  lemma {:induction false} NoDots(path: string)
    requires path == "" || path[0] == '/'
    requires '.' !in path
    ensures DotFree(Split(path))
    decreases |path|
  {
    if path != "" {
      var slash := NextSlash(path, 1);
      assert '.' !in path[1..slash] && '.' !in path[slash..];
      NoDots(path[slash..]);
      assert Split(path) == [path[1..slash]] + Split(path[slash..]);
    }
  }

  /** On every absolute path the loop, section 5.2.4 of RFC 3986 and the stack agree. */
  lemma {:induction false} AbsolutePathsAgree(path: string)
    requires path != "" && path[0] == '/'
    ensures Removed(path) == Join(Stacked([], Split(path)))
    ensures Removed(path) == Rfc3986("", path)
  {
    hide Join, Rfc3986, Rewrite, Stacked, Split;
    var segments := Split(path);
    assert Join([]) == "" && "" + Join([]) == Join([]);
    assert "" + Join(Stacked([], segments)) == Join(Stacked([], segments));
    assert Kept("", 0, segments) == "";
    RewriteRefines("", [], segments);
    Rfc3986Refines("", [], segments);
    if '.' !in path {
      NoDots(path);
      StackedAdds([], segments);
      assert [] + segments == segments;
    }
  }

  /** The result is absolute, free of dot segments and no longer than the path. */
  lemma {:induction false} AbsoluteResults(path: string)
    requires path != "" && path[0] == '/'
    ensures Removed(path) != "" && Removed(path)[0] == '/'
    ensures DotFree(Split(Removed(path)))
    ensures |Removed(path)| <= |path|
  {
    AbsolutePathsAgree(path);
    StackedKeeps([], Split(path));
    StackedIsShort([], Split(path));
    SplitJoin(Stacked([], Split(path)));
  }

  // All paths

  /** The path without its leading `./` and `../`. */
  function Stripped(path: string): string {
    if StartsWith(path, "./") then Stripped(path[2..])
    else if StartsWith(path, "../") then Stripped(path[3..])
    else path
  }

  function Head(path: string): string {
    path[..NextSlash(path, 0)]
  }

  function Body(path: string): (rest: string)
    ensures rest == "" || rest[0] == '/'
  {
    path[NextSlash(path, 0)..]
  }

  lemma {:induction false} Strips(path: string)
    ensures Rewrite("", path) == Rewrite("", Stripped(path))
    ensures Rfc3986("", path) == Rfc3986("", Stripped(path))
    ensures !StartsWith(Stripped(path), "./") && !StartsWith(Stripped(path), "../")
  {
    assert "/."[0] == '/' && "/.."[0] == '/' && "/./"[0] == '/' && "/../"[0] == '/';
    if StartsWith(path, "./") {
      assert path[0] == '.' && path[1] == '/' && "../"[1] == '.';
      Strips(path[2..]);
    } else if StartsWith(path, "../") {
      assert path[0] == '.' && path[1] == '.' && path[2] == '/';
      Strips(path[3..]);
    }
  }

  lemma {:induction false} NextSlashSkips(path: string)
    requires path != "" && path[0] != '/'
    ensures NextSlash(path, 1) == NextSlash(path, 0)
  {
  }

  // A relative path that does not start with a dot segment.
  predicate Plain(path: string) {
    && path != "" && path[0] != '/' && !IsDot(path)
    && !StartsWith(path, "./") && !StartsWith(path, "../")
  }

  /** Its first segment is copied to the result as it is. */
  lemma {:induction false} PlainPaths(path: string)
    requires Plain(path)
    ensures var kept := Stacked([], Split(Body(path)));
            && Rewrite("", path) == (if path == "0" then "" else Head(path) + Join(kept))
            && Rfc3986("", path) == Kept(Head(path), 0, Split(Body(path))) + Join(kept)
  {
    hide Rfc3986, Rewrite, Stacked, Kept, Join;
    assert Join([]) == "";
    var segments := Split(Body(path));
    NextSlashSkips(path);
    assert Head(path) + Join([]) == Head(path);
    assert Body("0") == "";
    PlainStep(path);
    if path != "0" {
      RewriteRefines(Head(path), [], segments);
    }
    Rfc3986Refines(Head(path), [], segments);
  }

  lemma {:induction false} PlainStep(path: string)
    requires Plain(path)
    ensures path != "0" ==> Rewrite("", path) == Rewrite(Head(path), Body(path))
    ensures path == "0" ==> Rewrite("", path) == ""
    ensures Rfc3986("", path) == Rfc3986(Head(path), Body(path))
  {
    NextSlashSkips(path);
    assert "" + Head(path) == Head(path);
    assert "/."[0] == '/' && "/.."[0] == '/' && "/./"[0] == '/' && "/../"[0] == '/';
  }

  predicate Conforms(path: string) {
    || '.' !in path
    || (var rest := Stripped(path);
        rest != "0" && (StartsWith(rest, "/") || !Underflows(0, Split(Body(rest)))))
  }

  lemma {:induction false} DotStart()
    ensures Rewrite("", ".") == "" && Rewrite("", "..") == "" && Rewrite("", "") == ""
    ensures Rfc3986("", ".") == "" && Rfc3986("", "..") == "" && Rfc3986("", "") == ""
    ensures !Underflows(0, Split(Body("."))) && !Underflows(0, Split(Body(".."))) && !Underflows(0, Split(Body("")))
  {
    assert ".."[1] == '.' && "./"[1] == '/';
    assert !StartsWith(".", "./") && !StartsWith("..", "../") && !StartsWith("..", "./");
    assert "/."[0] == '/' && "/.."[0] == '/' && "/./"[0] == '/' && "/../"[0] == '/' && "."[0] == '.' && ".."[0] == '.';
    assert Body(".") == "" && Body("..") == "" && Body("") == "";
  }

  /** What the loop gives, and what section 5.2.4 gives, for a path without leading `./` and `../`. */
  lemma {:induction false} StrippedPaths(rest: string)
    requires rest == Stripped(rest)
    ensures Rewrite("", rest) == Rfc3986("", rest)
       <==> rest != "0" && (StartsWith(rest, "/") || !Underflows(0, Split(Body(rest))))
  {
    Strips(rest);
    DotStart();
    if rest != "" && rest[0] == '/' {
      var segments := Split(rest);
      assert Join([]) == "" && "" + Join([]) == "" && "" + Join(Stacked([], segments)) == Join(Stacked([], segments));
      assert Kept("", 0, segments) == "";
      RewriteRefines("", [], segments);
      Rfc3986Refines("", [], segments);
      assert StartsWith(rest, "/") && rest != "0";
    } else if rest != "" && !IsDot(rest) {
      PlainPaths(rest);
      assert Head(rest) != "" && rest[0] != "/"[0];
      assert Body("0") == "" && Head("0") == "0";
      assert Join([]) == "";
      if Underflows(0, Split(Body(rest))) {
        assert |Head(rest) + Join(Stacked([], Split(Body(rest))))| > |Join(Stacked([], Split(Body(rest))))|;
      }
    }
  }

  lemma {:induction false} StrippedTwice(path: string)
    ensures Stripped(Stripped(path)) == Stripped(path)
  {
    if StartsWith(path, "./") {
      StrippedTwice(path[2..]);
    } else if StartsWith(path, "../") {
      StrippedTwice(path[3..]);
    }
  }

  lemma {:induction false} NoDotsInRfc3986(path: string)
    requires '.' !in path
    ensures Rfc3986("", path) == path
  {
    if path != "" && path[0] == '/' {
      AbsolutePathsAgree(path);
    } else if path != "" {
      assert "../"[0] == '.' && "./"[0] == '.' && "."[0] == '.' && ".."[0] == '.';
      PlainPaths(path);
      var body := Body(path);
      assert path == Head(path) + body && '.' !in body;
      NoDots(body);
      StackedAdds([], Split(body));
      assert [] + Split(body) == Split(body);
    }
  }

  /**
   The loop meets section 5.2.4 of RFC 3986 exactly on these paths. It fails where the
   string "0" ends the loop, and where `..` should remove a first segment without a slash.
   */
  lemma {:induction false} AgreesExactlyWhere(path: string)
    ensures Removed(path) == Rfc3986("", path) <==> Conforms(path)
  {
    if '.' !in path {
      NoDotsInRfc3986(path);
    } else {
      Strips(path);
      StrippedTwice(path);
      StrippedPaths(Stripped(path));
    }
  }

  /** Every absolute path is such a path. */
  lemma {:induction false} AbsolutePathsConform(path: string)
    requires path != "" && path[0] == '/'
    ensures Conforms(path)
  {
    assert "./"[0] == '.' && "../"[0] == '.';
    assert Stripped(path) == path && StartsWith(path, "/");
  }

  lemma {:induction false} HeadAndBody(a: string, body: string)
    requires '/' !in a && body != "" && body[0] == '/'
    ensures Head(a + body) == a && Body(a + body) == body
  {
    var path := a + body;
    var n := NextSlash(path, 0);
    assert forall i :: 0 <= i < |a| ==> path[i] == a[i];
    assert forall i :: 0 <= i < n ==> path[i] == path[0..n][i];
    assert path[|a|] == body[0];
  }

  lemma {:induction false} ParentThenName(a: string, b: string)
    requires '/' !in a && '/' !in b && Plain(a + ("/../" + b)) && !IsDot(b)
    ensures Removed(a + ("/../" + b)) == a + ("/" + b) && Rfc3986("", a + ("/../" + b)) == "/" + b
  {
    hide Rewrite, Rfc3986, Stacked, Split, Plain, Join, NextSlash, Underflows, Head, Body, Stripped;
    var body := "/../" + b;
    var path := a + body;
    assert body[1] == '.' && path[|a| + 1] == '.' && path != "0";
    HeadAndBody(a, body);
    TwoSegments(b);
    PlainPaths(path);
    assert "" + ("/" + b) == "/" + b;
  }

  lemma {:induction false} TwoSegments(b: string)
    requires '/' !in b && !IsDot(b)
    ensures Split("/../" + b) == ["..", b] && Stacked([], ["..", b]) == [b]
    ensures Join([b]) == "/" + b && Underflows(0, ["..", b])
  {
    var segments := ["..", b];
    assert segments[1..] == [b] && [b][1..] == [] && Join([]) == "";
    assert Join([b]) == "/" + b;
    assert Join(segments) == "/" + ".." + Join([b]) == "/../" + b;
    SplitJoin(segments);
    assert [] + [b] == [b] && Stacked([b], []) == [b];
    assert Stacked([], [b]) == [b];
  }

  /** Such a `..`: the first segment stays. */
  lemma {:induction false} ParentOfFirstSegment()
    ensures Removed("a/../b") == "a/b" && Rfc3986("", "a/../b") == "/b"
  {
    assert "a" + ("/../" + "b") == "a/../b" && "a" + ("/" + "b") == "a/b" && "/" + "b" == "/b";
    assert "a/../b"[0] == 'a' && "./"[0] == '.' && "../"[0] == '.' && "."[0] == '.' && ".."[0] == '.' && "b"[0] == 'b';
    ParentThenName("a", "b");
  }

  /** Such a string: PHP takes "0" for false. */
  lemma {:induction false} ZeroIsLost()
    ensures Removed("./0") == "" && Rfc3986("", "./0") == "0"
  {
    var path := "./0";
    assert path[0] == '.' && path[1] == '/' && path[2..] == "0";
    assert "0"[0] == '0' && "./"[0] == '.' && "../"[0] == '.';
    assert Stripped("0") == "0" && Stripped(path) == "0";
    Strips(path);
    NoDotsInRfc3986("0");
  }

  /** On every path a second run changes nothing. */
  lemma {:induction false} SecondRunChangesNothing(path: string)
    ensures Removed(Removed(path)) == Removed(path)
  {
    if '.' in path && '.' in Removed(path) {
      var rest := Stripped(path);
      Strips(path);
      StrippedTwice(path);
      DotStart();
      if rest != "" && rest[0] == '/' {
        var segments := Split(rest);
        assert "" + Join([]) == "" && "" + Join(Stacked([], segments)) == Join(Stacked([], segments));
        RewriteRefines("", [], segments);
        StackedKeeps([], segments);
        Unchanged("", Stacked([], segments));
      } else {
        PlainPaths(rest);
        StackedKeeps([], Split(Body(rest)));
        PlainIsUnchanged(rest);
      }
    }
  }

  /** A joined stack without dot segments is copied. */
  lemma {:induction false} Unchanged(pre: string, stack: seq<string>)
    requires '/' !in pre && Slashless(stack) && DotFree(stack)
    ensures Rewrite(pre, Join(stack)) == pre + Join(stack)
  {
    assert Join([]) == "" && pre + Join([]) == pre && [] + stack == stack;
    RewriteRefines(pre, [], stack);
    StackedAdds([], stack);
  }

  lemma {:induction false} PlainIsUnchanged(path: string)
    requires Plain(path) && path != "0"
    ensures var result := Head(path) + Join(Stacked([], Split(Body(path))));
            Rewrite("", result) == result
  {
    hide Plain, Rewrite, Stacked;
    var segments := Split(Body(path));
    var stack := Stacked([], segments);
    NoSegments();
    StackedKeeps([], segments);
    var head, rest := Head(path), Join(stack);
    HeadIsFirst(path);
    PlainPath(head, rest);
    if rest == "" {
      assert segments == [] && Body(path) == "" && head + rest == path;
      NoSlash(head);
      assert head + rest == head;
    } else {
      HeadAndBody(head, rest);
    }
    PlainStep(head + rest);
    Unchanged(head, stack);
  }

  lemma {:induction false} NoSegments()
    ensures Slashless([]) && DotFree([])
  {
  }

  lemma {:induction false} NoSlash(head: string)
    requires '/' !in head
    ensures Head(head) == head && Body(head) == ""
  {
    assert NextSlash(head, 0) == |head|;
  }

  /** The first segment of such a path. */
  lemma {:induction false} HeadIsFirst(path: string)
    requires Plain(path)
    ensures Head(path) != "" && '/' !in Head(path) && !IsDot(Head(path)) && path == Head(path) + Body(path)
  {
    var head, n := Head(path), NextSlash(path, 0);
    assert head == path[0..n];
    assert n == |path| ==> head == path;
    assert n < |path| ==> path[..n + 1] == head + "/" && head + "/" <= path;
    assert head == "." ==> head + "/" == "./";
    assert head == ".." ==> head + "/" == "../";
  }

  /** A first segment that is no dot segment starts such a path. */
  lemma {:induction false} PlainPath(head: string, rest: string)
    requires head != "" && '/' !in head && !IsDot(head) && (rest == "" || rest[0] == '/')
    ensures Plain(head + rest)
  {
    var path, k := head + rest, |head|;
    assert path[0] == head[0];
    assert k == 1 ==> head == [path[0]];
    assert k == 2 ==> head == [path[0], path[1]];
    assert k > 1 ==> path[1] == head[1] && path[1] != '/';
    assert k > 2 ==> path[2] == head[2] && path[2] != '/';
    assert k == 1 && rest != "" ==> path[1] == '/';
    assert "./"[0] == '.' && "./"[1] == '/';
    assert "../"[0] == '.' && "../"[1] == '.' && "../"[2] == '/';
    assert rest == "" ==> path == head;
    assert ".."[1] == '.' && |"."| == 1;
  }
}
