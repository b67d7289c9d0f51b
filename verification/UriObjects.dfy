/**
 The objects of Uri.php, Authority.php, Query.php and UriParser.php, whose methods
 fill fields and buffers, against the functions on values.
 */
module UriObjects {
  import opened Wrappers
  import V = UriText
  import opened DotSegments
  import opened UriResolution

  class Authority {
    var userInfo: Option<string>
    var host: Option<string>
    var port: Option<int>

    constructor ()
      ensures Value() == V.NullAuthority
    {
      userInfo, host, port := None, None, None;
    }

    function Value(): V.Authority
      reads this
    {
      V.Authority(userInfo, host, port)
    }

    predicate IsNull()
      reads this
      ensures IsNull() <==> V.NoAuthority(Value())
    {
      userInfo.None? && host.None? && port.None?
    }

    method SetUserInfo(value: Option<string>)
      modifies this`userInfo
      ensures userInfo == value
    {
      userInfo := value;
    }

    method SetHost(value: Option<string>)
      modifies this`host
      ensures host == value
    {
      host := value;
    }

    method SetPort(value: Option<int>)
      modifies this`port
      ensures port == value
    {
      port := value;
    }

    /** toStr(false) */
    method ToStr() returns (text: string)
      ensures text == V.AuthorityText(Value())
    {
      text := "";
      if host.Some? {
        text := text + host.value;
      }
      if port.Some? {
        text := text + (":" + V.IntText(port.value));
      }
    }
  }

  class Query {
    var initialized: bool
    var args: Dict<Option<string>>

    constructor ()
      ensures Value() == V.NullQuery
    {
      initialized, args := false, [];
    }

    constructor FromArgs(args: Dict<Option<string>>)
      ensures Value() == V.Query(false, args)
    {
      initialized, this.args := false, args;
    }

    constructor FromString(text: string)
      requires V.Flat(text)
      ensures Value() == V.Query(true, V.ParsedQuery(text).args)
    {
      var query := ParseOnlyQuery(text);
      initialized, args := true, query.args;
    }

    function Value(): V.Query
      reads this
    {
      V.Query(initialized, args)
    }

    predicate IsNull()
      reads this
      ensures IsNull() <==> V.NoQuery(Value())
    {
      !initialized && |args| == 0
    }

    /** toStr(false) */
    method ToStr() returns (text: string)
      ensures text == V.QueryText(Value())
    {
      text := "";
      var i := 0;
      while i < |args|
        invariant i <= |args|
        invariant text + V.ArgsText(args[i..]) == V.ArgsText(args)
      {
        var arg := args[i];
        ArgsFrom(args, i, text);
        text := text + ("&" + arg.0);
        if arg.1.Some? {
          text := text + ("=" + arg.1.value);
        }
        i := i + 1;
      }
      assert text + "" == text;
      text := V.TrimLeft(text, '&');
    }
  }

  lemma {:induction false} ArgsFrom(args: Dict<Option<string>>, i: nat, before: string)
    requires i < |args|
    ensures before + V.ArgsText(args[i..]) == before + ("&" + args[i].0)
              + (if args[i].1.Some? then "=" + args[i].1.value else "") + V.ArgsText(args[i + 1..])
    ensures args[i].1.None? ==> before + V.ArgsText(args[i..]) == before + ("&" + args[i].0) + V.ArgsText(args[i + 1..])
  {
    var todo := args[i..];
    assert todo[0] == args[i] && todo[1..] == args[i + 1..];
    var rest := V.ArgsText(todo[1..]);
    var tail := if args[i].1.Some? then "=" + args[i].1.value else "";
    assert V.ArgsText(todo) == "&" + (args[i].0 + tail) + rest;
    assert before + ("&" + (args[i].0 + tail) + rest) == before + ("&" + args[i].0) + tail + rest;
    assert tail == "" ==> before + ("&" + args[i].0) + tail == before + ("&" + args[i].0);
  }

  method ParseOnlyAuthority(s: string) returns (authority: Authority)
    ensures fresh(authority) && authority.Value() == V.ParsedAuthority(s)
  {
    hide V.ReadHost, V.Run, V.PortNumber;
    authority := new Authority();
    if s == "" {
      authority.SetUserInfo(Some(""));
      authority.SetHost(Some(""));
      return;
    }
    var at := V.Run(s, "@");
    var userInfo, m := None, V.ReadHost(s);
    if at < |s| && V.ReadHost(s[at + 1..]).Some? {
      userInfo, m := Some(s[..at]), V.ReadHost(s[at + 1..]);
    }
    if m.None? {
      return;
    }
    var (host, port) := m.value;
    authority.SetUserInfo(userInfo);
    authority.SetHost(Some(host));
    authority.SetPort(if port.Some? then Some(V.PortNumber(port.value)) else None);
  }

  method ParseOnlyQuery(text: string) returns (query: Query)
    requires V.Flat(text)
    ensures fresh(query) && query.Value() == V.ParsedQuery(text)
  {
    if text == "" {
      query := new Query();
      return;
    }
    var parts := V.Explode(text, '&');
    var args: Dict<Option<string>> := [];
    var i := 0;
    while i < |parts|
      invariant i <= |parts|
      invariant V.PutParts(args, parts[i..]) == V.PutParts([], parts)
    {
      assert parts[i..][0] == parts[i] && parts[i..][1..] == parts[i + 1..];
      var (key, value) := V.KeyValue(parts[i]);
      i := i + 1;
      if V.Falsy(key) {
        continue;
      }
      args := Put(args, key, value);
    }
    query := new Query.FromArgs(args);
  }

  class Uri {
    var scheme: string
    var path: Option<string>
    var query: Query?
    var fragment: Option<string>
    var authority: Authority?

    constructor ()
      ensures Value() == V.Empty
      ensures query == null && authority == null
    {
      scheme, path, query, fragment, authority := "", None, null, None, null;
    }

    /** What the accessors show: an absent object reads as a null one. */
    function Value(): V.Uri
      reads this, query, authority
    {
      V.Uri(
        scheme,
        if authority == null then V.NullAuthority else authority.Value(),
        if path.Some? then path.value else "",
        if query == null then V.NullQuery else query.Value(),
        fragment)
    }

    /** authority(): made on first use, which does not show. */
    method GetAuthority() returns (a: Authority)
      modifies this`authority
      ensures a == authority && a.Value() == Value().authority && Value() == old(Value())
      ensures fresh(a) || a == old(authority)
    {
      if authority == null {
        authority := new Authority();
      }
      return authority;
    }

    method GetQuery() returns (q: Query)
      modifies this`query
      ensures q == query && q.Value() == Value().query && Value() == old(Value())
      ensures fresh(q) || q == old(query)
    {
      if query == null {
        query := new Query();
      }
      return query;
    }

    method GetPath() returns (p: string)
      modifies this`path
      ensures p == Value().path && Value() == old(Value())
    {
      if path.None? {
        path := Some("");
      }
      return path.value;
    }

    method SetScheme(value: string)
      modifies this`scheme
      ensures Value() == old(Value()).(scheme := value)
    {
      scheme := value;
    }

    method SetAuthority(value: Authority)
      modifies this`authority
      ensures authority == value && Value() == old(Value()).(authority := value.Value())
    {
      authority := value;
    }

    method SetPath(value: string)
      modifies this`path
      ensures path == Some(value) && Value() == old(Value()).(path := value)
    {
      path := Some(value);
    }

    method SetQuery(value: Query)
      modifies this`query
      ensures query == value && Value() == old(Value()).(query := value.Value())
    {
      query := value;
    }

    method SetFragment(value: Option<string>)
      modifies this`fragment
      ensures Value() == old(Value()).(fragment := value)
    {
      fragment := value;
    }

    /** The text of the authority, unless it is null. */
    method AuthorityToStr() returns (text: Option<string>)
      modifies this`authority
      ensures Value() == old(Value())
      ensures text == if V.NoAuthority(Value().authority) then None else Some(V.AuthorityText(Value().authority))
    {
      hide V.AuthorityText, V.NoAuthority;
      var a := GetAuthority();
      if a.IsNull() {
        return None;
      }
      var s := a.ToStr();
      return Some(s);
    }

    method QueryToStr() returns (text: Option<string>)
      modifies this`query
      ensures Value() == old(Value())
      ensures text == if V.NoQuery(Value().query) then None else Some(V.QueryText(Value().query))
    {
      hide V.QueryText, V.NoQuery;
      var q := GetQuery();
      if q.IsNull() {
        return None;
      }
      var s := q.ToStr();
      return Some(s);
    }

    /** toStr($parts, false) */
    method ToStr(conf: V.Conf) returns (text: string)
      modifies this
      ensures text == V.PrintedParts(old(Value()), conf) && Value() == old(Value())
    {
      hide V.AuthorityText, V.QueryText, V.NoAuthority, V.NoQuery, V.PrintedParts;
      ghost var u := Value();
      ghost var only := V.Only(u, conf);
      NothingToPrint();
      PrintedAlone(u);
      text := "";
      if conf.scheme {
        if scheme != "" {
          if conf == V.Conf(true, false, false, false, false) {
            return scheme;
          }
          text := text + (scheme + ":");
        }
      }
      assert text == V.SchemePart(only);
      if conf.authority {
        var s := AuthorityToStr();
        if s.Some? {
          if conf == V.Conf(false, true, false, false, false) {
            return s.value;
          }
          text := text + ("//" + s.value);
        }
      }
      assert Value() == u && text == V.SchemePart(only) + V.AuthorityPart(only);
      if conf.path {
        var p := GetPath();
        text := text + p;
      }
      assert Value() == u && text == V.SchemePart(only) + V.AuthorityPart(only) + only.path;
      if conf.query {
        var s := QueryToStr();
        if s.Some? {
          if conf == V.Conf(false, false, false, true, false) {
            return s.value;
          }
          text := text + ("?" + s.value);
        }
      }
      assert Value() == u && text == V.SchemePart(only) + V.AuthorityPart(only) + only.path + V.QueryPart(only);
      if conf.fragment {
        if fragment.Some? {
          if conf == V.Conf(false, false, false, false, true) {
            return fragment.value;
          }
          text := text + ("#" + fragment.value);
        }
      }
      Together(u, conf, text);
    }
  }

  lemma {:induction false} PrintedAlone(u: V.Uri)
    ensures V.PrintedParts(u, V.Conf(true, false, false, false, false)) == u.scheme
    ensures V.PrintedParts(u, V.Conf(false, true, false, false, false)) == V.AuthorityText(u.authority)
    ensures V.PrintedParts(u, V.Conf(false, false, false, true, false)) == V.QueryText(u.query)
    ensures u.fragment.Some? ==> V.PrintedParts(u, V.Conf(false, false, false, false, true)) == u.fragment.value
  {
  }

  lemma {:induction false} Together(u: V.Uri, conf: V.Conf, text: string)
    requires var only := V.Only(u, conf);
             text == V.SchemePart(only) + V.AuthorityPart(only) + only.path + V.QueryPart(only) + V.FragmentPart(only)
    requires conf == V.Conf(true, false, false, false, false) ==> u.scheme == ""
    requires conf == V.Conf(false, true, false, false, false) ==> V.NoAuthority(u.authority)
    requires conf == V.Conf(false, false, false, true, false) ==> V.NoQuery(u.query)
    requires conf == V.Conf(false, false, false, false, true) ==> u.fragment.None?
    ensures text == V.PrintedParts(u, conf)
  {
    NothingToPrint();
  }

  lemma {:induction false} NothingToPrint()
    ensures V.NoAuthority(V.NullAuthority) && V.NoQuery(V.NullQuery)
    ensures forall a :: V.NoAuthority(a) ==> V.AuthorityText(a) == ""
    ensures forall q :: V.NoQuery(q) ==> V.QueryText(q) == ""
  {
  }

  class UriParser {
    var uri: Uri
    var m: V.Parts

    constructor ()
    {
      uri := new Uri();
      m := V.Match("");
    }

    /** __invoke */
    method Parse(s: string) returns (parsed: Uri)
      requires V.FlatUri(s)
      modifies this
      ensures fresh(parsed) && parsed.Value() == V.ParsedUri(s)
    {
      uri := new Uri();
      m := V.Match(s);
      uri.SetScheme(m.scheme);
      if m.authority.Some? {
        var a := ParseOnlyAuthority(m.authority.value);
        uri.SetAuthority(a);
      }
      uri.SetPath(m.path);
      if m.query.Some? {
        var q := new Query.FromString(m.query.value);
        uri.SetQuery(q);
      }
      if m.fragment.Some? {
        uri.SetFragment(m.fragment);
      }
      return uri;
    }
  }

  /** The path without dot segments and the query of the reference. */
  method TakePathAndQuery(target: Uri, rel: Uri)
    requires target != rel
    modifies target, rel
    ensures rel.Value() == old(rel.Value())
    ensures target.Value() == old(target.Value()).(path := Removed(rel.Value().path), query := rel.Value().query)
    ensures target.authority == old(target.authority) && rel.authority == old(rel.authority)
  {
    hide Removed;
    var p := rel.GetPath();
    var removed := RemoveDotSegments(p);
    target.SetPath(removed);
    var q := rel.GetQuery();
    target.SetQuery(q);
  }

  /** The path and the query of a reference that has neither a scheme nor an authority. */
  method TakeRelativePathAndQuery(target: Uri, base: Uri, rel: Uri)
    requires target != base && target != rel
    requires target.authority == null && target.query == null
    modifies target, base, rel
    ensures base.Value() == old(base.Value()) && rel.Value() == old(rel.Value())
    ensures target.scheme == old(target.scheme) && target.fragment == old(target.fragment)
    ensures var u := old(rel.Value());
            target.Value().path ==
              if u.path == "" then old(base.Value()).path
              else if u.path[0] == '/' then Removed(u.path)
              else Removed(MergedPath(old(base.Value()), u.path))
    ensures var u := old(rel.Value());
            target.Value().query == if u.path == "" && V.NoQuery(u.query) then old(base.Value()).query else u.query
  {
    hide Removed, MergedPath, V.NoAuthority, V.NoQuery;
    var p := rel.GetPath();
    if p == "" {
      var bp := base.GetPath();
      target.SetPath(bp);
      var q := rel.GetQuery();
      if q.IsNull() {
        q := base.GetQuery();
      }
      target.SetQuery(q);
    } else {
      TakeRelativePath(target, base, p);
      var q := rel.GetQuery();
      target.SetQuery(q);
    }
  }

  method TakeRelativePath(target: Uri, base: Uri, p: string)
    requires target != base && p != ""
    modifies target`path, base
    ensures base.Value() == old(base.Value()) && base.query == old(base.query)
    ensures fresh(base.authority) || base.authority == old(base.authority)
    ensures target.path == Some(if p[0] == '/' then Removed(p) else Removed(MergedPath(old(base.Value()), p)))
  {
    hide Removed, MergedPath;
    var full := p;
    if p[0] != '/' {
      full := Merge(base, p);
    }
    var removed := RemoveDotSegments(full);
    target.SetPath(removed);
  }

  method ResolveWithoutScheme(target: Uri, base: Uri, rel: Uri)
    requires target != base && target != rel && rel.scheme == ""
    requires target.authority == null && target.query == null
    modifies target, base, rel
    ensures target.Value() == Resolved(old(base.Value()), old(rel.Value())).(fragment := old(target.fragment))
    ensures base.Value() == old(base.Value()) && rel.Value() == old(rel.Value())
  {
    hide V.NoAuthority, V.NoQuery, Removed, MergedPath;
    ghost var b, r := base.Value(), rel.Value();
    var a := rel.GetAuthority();
    if !a.IsNull() {
      target.SetAuthority(a);
      TakePathAndQuery(target, rel);
    } else {
      TakeRelativePathAndQuery(target, base, rel);
      var ba := base.GetAuthority();
      target.SetAuthority(ba);
    }
    assert base.Value() == b && rel.Value() == r;
    target.SetScheme(base.scheme);
  }

  method ResolveWithScheme(target: Uri, rel: Uri)
    requires target != rel && rel.scheme != "" && target.authority == null && target.query == null
    modifies target, rel
    ensures rel.Value() == old(rel.Value())
    ensures var u := old(rel.Value());
            target.Value() == V.Uri(u.scheme, u.authority, Removed(u.path), u.query, old(target.fragment))
  {
    hide Removed;
    target.SetScheme(rel.scheme);
    var a := rel.GetAuthority();
    target.SetAuthority(a);
    TakePathAndQuery(target, rel);
  }

  /** resolveRelUri: the target is filled through setters and shares the objects of its sources. */
  method ResolveRelUri(base: Uri, rel: Uri) returns (target: Uri)
    modifies base, rel
    ensures fresh(target) && target.Value() == Resolved(old(base.Value()), old(rel.Value()))
    ensures base.Value() == old(base.Value()) && rel.Value() == old(rel.Value())
  {
    hide V.NoAuthority, V.NoQuery, Removed, MergedPath;
    target := new Uri();
    if rel.scheme != "" {
      ResolveWithScheme(target, rel);
    } else {
      ResolveWithoutScheme(target, base, rel);
    }
    target.SetFragment(rel.fragment);
  }

  method Merge(base: Uri, path: string) returns (merged: string)
    modifies base
    ensures merged == MergedPath(old(base.Value()), path) && base.Value() == old(base.Value())
    ensures fresh(base.authority) || base.authority == old(base.authority)
    ensures base.query == old(base.query)
  {
    var a := base.GetAuthority();
    var bp := base.GetPath();
    if !a.IsNull() && bp == "" {
      return "/" + path;
    }
    var slash := LastPos(bp, '/');
    if slash.None? {
      return path;
    }
    return bp[..slash.value + 1] + path;
  }
}
