/**
 `Uri::resolveRelUri` of Uri.php on values, next to sections 5.2.2 and 5.2.3 of RFC 3986.
 */
module UriResolution {
  import opened Wrappers
  import opened UriText
  import opened DotSegments

  /** The base path up to its last slash, then the path of the reference. */
  function MergedPath(base: Uri, path: string): string {
    if !NoAuthority(base.authority) && base.path == "" then "/" + path
    else
      var slash := LastPos(base.path, '/');
      if slash.None? then path else base.path[..slash.value + 1] + path
  }

  function Resolved(base: Uri, rel: Uri): Uri {
    if rel.scheme != "" then
      Uri(rel.scheme, rel.authority, Removed(rel.path), rel.query, rel.fragment)
    else if !NoAuthority(rel.authority) then
      Uri(base.scheme, rel.authority, Removed(rel.path), rel.query, rel.fragment)
    else if rel.path == "" then
      Uri(base.scheme, base.authority, base.path, if NoQuery(rel.query) then base.query else rel.query, rel.fragment)
    else if rel.path[0] == '/' then
      Uri(base.scheme, base.authority, Removed(rel.path), rel.query, rel.fragment)
    else
      Uri(base.scheme, base.authority, Removed(MergedPath(base, rel.path)), rel.query, rel.fragment)
  }

  // RFC 3986: a component is defined or not.

  datatype Reference = Reference(
    scheme: Option<string>, authority: Option<Authority>, path: string, query: Option<Dict<Option<string>>>,
    fragment: Option<string>)

  function Defined(u: Uri): Reference {
    Reference(
      if u.scheme == "" then None else Some(u.scheme),
      if NoAuthority(u.authority) then None else Some(u.authority),
      u.path,
      if NoQuery(u.query) then None else Some(u.query.args),
      u.fragment)
  }

  function RemoveDots(path: string): string {
    Rfc3986("", path)
  }

  /** Section 5.2.3 */
  function Merge(base: Reference, path: string): string {
    if base.authority.Some? && base.path == "" then "/" + path
    else UpToLastSlash(base.path) + path
  }

  function UpToLastSlash(path: string): string {
    if path == "" || path[|path| - 1] == '/' then path else UpToLastSlash(path[..|path| - 1])
  }

  /** Section 5.2.2, for a strict parser */
  function Transform(base: Reference, r: Reference): Reference {
    if r.scheme.Some? then r.(path := RemoveDots(r.path))
    else
      var t :=
        if r.authority.Some? then r.(path := RemoveDots(r.path))
        else if r.path == "" then
          r.(authority := base.authority, path := base.path, query := if r.query.Some? then r.query else base.query)
        else if "/" <= r.path then r.(authority := base.authority, path := RemoveDots(r.path))
        else r.(authority := base.authority, path := RemoveDots(Merge(base, r.path)));
      t.(scheme := base.scheme)
  }

  lemma {:induction false} UpToLastSlashIs(path: string)
    ensures var slash := LastPos(path, '/');
            UpToLastSlash(path) == if slash.None? then "" else path[..slash.value + 1]
  {
    if path != "" && path[|path| - 1] != '/' {
      UpToLastSlashIs(path[..|path| - 1]);
    }
  }

  /** The path whose dot segments are removed, if any is. */
  function Unresolved(base: Uri, rel: Uri): (path: Option<string>) {
    if rel.scheme != "" || !NoAuthority(rel.authority) || "/" <= rel.path then Some(rel.path)
    else if rel.path == "" then None
    else Some(MergedPath(base, rel.path))
  }

  lemma {:induction false} MergesAgree(base: Uri, path: string)
    ensures MergedPath(base, path) == Merge(Defined(base), path)
  {
    UpToLastSlashIs(base.path);
    hide LastPos, UpToLastSlash, NoAuthority;
    assert "" + path == path;
  }

  /** The result is the one of RFC 3986 exactly where the removal of dot segments is. */
  lemma {:induction false} ResolvesExactlyWhere(base: Uri, rel: Uri)
    ensures Defined(Resolved(base, rel)) == Transform(Defined(base), Defined(rel))
       <==> (Unresolved(base, rel).Some? ==> Conforms(Unresolved(base, rel).value))
  {
    hide Removed, Rfc3986, Conforms, MergedPath, Merge;
    MergesAgree(base, rel.path);
    if Unresolved(base, rel).Some? {
      AgreesExactlyWhere(Unresolved(base, rel).value);
    }
  }

  predicate Absolute(path: string) {
    "/" <= path
  }

  /** A base with a scheme, and a path that is absolute or is missing after an authority. */
  predicate GoodBase(base: Uri) {
    base.scheme != "" && (Absolute(base.path) || (!NoAuthority(base.authority) && base.path == ""))
  }

  predicate GoodReference(rel: Uri) {
    rel.scheme != "" || !NoAuthority(rel.authority) ==> rel.path == "" || Absolute(rel.path)
  }

  lemma {:induction false} ResolvesAsRfc3986(base: Uri, rel: Uri)
    requires GoodBase(base) && GoodReference(rel)
    ensures Defined(Resolved(base, rel)) == Transform(Defined(base), Defined(rel))
  {
    ResolvesExactlyWhere(base, rel);
    var path := Unresolved(base, rel);
    if path.Some? && path.value != "" {
      if rel.path != "" && !Absolute(rel.path) && Absolute(base.path) {
        var slash := LastPos(base.path, '/');
        assert base.path[0] == '/' && slash.Some?;
        assert path.value[0] == base.path[0];
      }
      assert path.value[0] == '/';
      AbsolutePathsConform(path.value);
    }
  }

  /** The reference has neither a scheme nor an authority nor a path: the base path is taken as it is. */
  predicate SameDocument(rel: Uri) {
    rel.scheme == "" && NoAuthority(rel.authority) && rel.path == ""
  }

  /**
   Against a base with a scheme, resolving the result again changes nothing, unless the
   base path is taken as it is and has segments to remove.
   */
  lemma {:induction false} ResolvingAgainChangesNothingExactlyWhere(base: Uri, rel: Uri)
    requires base.scheme != ""
    ensures Resolved(base, Resolved(base, rel)) == Resolved(base, rel)
       <==> (SameDocument(rel) ==> Removed(base.path) == base.path)
  {
    hide Removed, MergedPath;
    if Unresolved(base, rel).Some? {
      SecondRunChangesNothing(Unresolved(base, rel).value);
    }
  }

  lemma {:induction false} ResolvedPathsAreDotFree(base: Uri, rel: Uri)
    requires GoodBase(base) && GoodReference(rel) && !SameDocument(rel)
    ensures var path := Resolved(base, rel).path;
            path != "" ==> Absolute(path) && DotFree(Split(path))
  {
    var path := Unresolved(base, rel).value;
    if rel.path != "" && !Absolute(rel.path) && Absolute(base.path) {
      var slash := LastPos(base.path, '/');
      assert base.path[0] == '/' && slash.Some?;
      assert path[0] == base.path[0];
    }
    assert path == "" || path[0] == '/';
    if path != "" {
      AbsoluteResults(path);
    }
  }
}
