/**
 URIs as values: the printing of Uri.php, Authority.php and Query.php, and the
 reading of UriParser.php, whose regular expressions are deterministic here.
 */
module UriText {
  import opened Wrappers

  // A null field is None. The scheme and the path are never null.
  datatype Authority = Authority(userInfo: Option<string>, host: Option<string>, port: Option<int>)

  // `initialized` is set when the query was made from a string.
  datatype Query = Query(initialized: bool, args: Dict<Option<string>>)

  datatype Uri = Uri(scheme: string, authority: Authority, path: string, query: Query, fragment: Option<string>)

  const NullAuthority := Authority(None, None, None)
  const NullQuery := Query(false, [])
  const Empty := Uri("", NullAuthority, "", NullQuery, None)

  predicate NoAuthority(a: Authority) {
    a.userInfo.None? && a.host.None? && a.port.None?
  }

  predicate NoQuery(q: Query) {
    !q.initialized && q.args == []
  }

  // Printing, without encoding

  function Decimal(n: nat): (s: string)
    ensures s != "" && AllDigits(s)
  {
    if n < 10 then [Digit(n)] else Decimal(n / 10) + [Digit(n % 10)]
  }

  function Digit(n: nat): (c: char)
    requires n < 10
    ensures IsDigit(c) && c as int - '0' as int == n
  {
    ('0' as int + n) as char
  }

  predicate IsDigit(c: char) {
    '0' <= c <= '9'
  }

  function IntText(n: int): string {
    if n < 0 then "-" + Decimal(-n) else Decimal(n)
  }

  /** User information is printed only when it is encoded. */
  function AuthorityText(a: Authority): string {
    (if a.host.Some? then a.host.value else "") + if a.port.Some? then ":" + IntText(a.port.value) else ""
  }

  function ArgText(arg: (string, Option<string>)): string {
    arg.0 + if arg.1.Some? then "=" + arg.1.value else ""
  }

  function ArgsText(args: Dict<Option<string>>): string {
    if args == [] then "" else "&" + ArgText(args[0]) + ArgsText(args[1..])
  }

  function TrimLeft(s: string, c: char): string {
    if s != "" && s[0] == c then TrimLeft(s[1..], c) else s
  }

  function QueryText(q: Query): string {
    TrimLeft(ArgsText(q.args), '&')
  }

  function SchemePart(u: Uri): string {
    if u.scheme != "" then u.scheme + ":" else ""
  }

  function AuthorityPart(u: Uri): string {
    if NoAuthority(u.authority) then "" else "//" + AuthorityText(u.authority)
  }

  function QueryPart(u: Uri): string {
    if NoQuery(u.query) then "" else "?" + QueryText(u.query)
  }

  function FragmentPart(u: Uri): string {
    if u.fragment.Some? then "#" + u.fragment.value else ""
  }

  function PrintedUri(u: Uri): string {
    SchemePart(u) + AuthorityPart(u) + u.path + QueryPart(u) + FragmentPart(u)
  }

  // The parts that toStr is asked for; null asks for all.
  datatype Conf = Conf(scheme: bool, authority: bool, path: bool, query: bool, fragment: bool)

  const All := Conf(true, true, true, true, true)

  /** The URI with the other components cleared. */
  function Only(u: Uri, c: Conf): Uri {
    Uri(
      if c.scheme then u.scheme else "",
      if c.authority then u.authority else NullAuthority,
      if c.path then u.path else "",
      if c.query then u.query else NullQuery,
      if c.fragment then u.fragment else None)
  }

  /** A component asked for alone is printed without its delimiter. */
  function PrintedParts(u: Uri, c: Conf): string {
    if c == Conf(true, false, false, false, false) then u.scheme
    else if c == Conf(false, true, false, false, false) then AuthorityText(u.authority)
    else if c == Conf(false, false, false, true, false) then QueryText(u.query)
    else if c == Conf(false, false, false, false, true) then if u.fragment.Some? then u.fragment.value else ""
    else PrintedUri(Only(u, c))
  }

  // Reading: the regular expression of the whole URI

  /** How many characters come before the first of `stops`. */
  function Run(s: string, stops: string): (n: nat)
    ensures n <= |s| && (forall i :: 0 <= i < n ==> s[i] !in stops) && (n < |s| ==> s[n] in stops)
  {
    if s == "" || s[0] in stops then 0
    else
      var n := Run(s[1..], stops);
      assert forall i :: 0 < i < n + 1 ==> s[i] == s[1..][i - 1];
      n + 1
  }

  datatype Parts = Parts(
    scheme: string, authority: Option<string>, path: string, query: Option<string>, fragment: Option<string>)

  function ReadScheme(s: string): (r: (string, string)) {
    var n := Run(s, ":/?#");
    if 0 < n < |s| && s[n] == ':' then (s[..n], s[n + 1..]) else ("", s)
  }

  function ReadAuthority(s: string): (r: (Option<string>, string)) {
    if "//" <= s then
      var n := Run(s[2..], "/?#");
      (Some(s[2..][..n]), s[2..][n..])
    else (None, s)
  }

  function ReadPath(s: string): (r: (string, string)) {
    var n := Run(s, "?#");
    (s[..n], s[n..])
  }

  function ReadQuery(s: string): (r: (Option<string>, string)) {
    if s != "" && s[0] == '?' then
      var n := Run(s[1..], "#");
      (Some(s[1..][..n]), s[1..][n..])
    else (None, s)
  }

  function ReadFragment(s: string): (r: Option<string>) {
    if s != "" && s[0] == '#' then Some(s[1..]) else None
  }

  function Match(s: string): Parts {
    var (scheme, s1) := ReadScheme(s);
    var (authority, s2) := ReadAuthority(s1);
    var (path, s3) := ReadPath(s2);
    var (query, s4) := ReadQuery(s3);
    Parts(scheme, authority, path, query, ReadFragment(s4))
  }

  // The regular expression of an authority. A group that does not match is given back:
  // first the port, then the brackets, then the host, then the user information.

  // `$` also matches before a final line feed.
  predicate AtEnd(s: string) {
    s == "" || s == "\n"
  }

  function DigitRun(s: string): (n: nat)
    ensures n <= |s| && (forall i :: 0 <= i < n ==> IsDigit(s[i])) && (n < |s| ==> !IsDigit(s[n]))
  {
    if s == "" || !IsDigit(s[0]) then 0
    else
      var n := DigitRun(s[1..]);
      assert forall i :: 0 < i < n + 1 ==> s[i] == s[1..][i - 1];
      n + 1
  }

  /** The optional port and the end. */
  function ReadPort(s: string): (r: Option<Option<string>>) {
    if s != "" && s[0] == ':' then
      var n := DigitRun(s[1..]);
      if n > 0 && AtEnd(s[1..][n..]) then Some(Some(s[1..][..n])) else None
    else if AtEnd(s) then Some(None)
    else None
  }

  /** The length of `[...]` at the start, or 0. */
  function Bracketed(s: string): (n: nat)
    ensures n <= |s|
  {
    if s == "" || s[0] != '[' then 0
    else
      var n := Run(s[1..], "]");
      if 0 < n < |s[1..]| then n + 2 else 0
  }

  function ReadHost(s: string): (r: Option<(string, Option<string>)>) {
    var b := Bracketed(s);
    var n := Run(s, ":");
    if b > 0 && ReadPort(s[b..]).Some? then Some((s[..b], ReadPort(s[b..]).value))
    else if n > 0 && ReadPort(s[n..]).Some? then Some((s[..n], ReadPort(s[n..]).value))
    else if ReadPort(s).Some? then Some(("", ReadPort(s).value))
    else None
  }

  predicate AllDigits(s: string) {
    forall i :: 0 <= i < |s| ==> IsDigit(s[i])
  }

  function Value(c: char): (n: nat)
    ensures IsDigit(c) ==> n < 10 && n == c as int - '0' as int
  {
    if IsDigit(c) then c as int - '0' as int else 0
  }

  function Number(digits: string): nat {
    if digits == "" then 0 else 10 * Number(digits[..|digits| - 1]) + Value(digits[|digits| - 1])
  }

  const INT_MAX := 0x7fff_ffff_ffff_ffff

  /** The cast to an integer of 64 bits, which stops at the greatest one. */
  function PortNumber(digits: string): int {
    if Number(digits) <= INT_MAX then Number(digits) else INT_MAX
  }

  function MkAuthority(userInfo: Option<string>, m: (string, Option<string>)): Authority {
    Authority(userInfo, Some(m.0), if m.1.Some? then Some(PortNumber(m.1.value)) else None)
  }

  /** parseOnlyAuthority: an authority that does not match is null. */
  function ParsedAuthority(s: string): Authority {
    if s == "" then Authority(Some(""), Some(""), None)
    else
      var at := Run(s, "@");
      if at < |s| && ReadHost(s[at + 1..]).Some? then MkAuthority(Some(s[..at]), ReadHost(s[at + 1..]).value)
      else if ReadHost(s).Some? then MkAuthority(None, ReadHost(s).value)
      else NullAuthority
  }

  // parseOnlyQuery, for keys without brackets

  function Explode(s: string, c: char): (parts: seq<string>)
    ensures parts != []
  {
    var n := Run(s, [c]);
    if n == |s| then [s] else [s[..n]] + Explode(s[n + 1..], c)
  }

  function KeyValue(part: string): (string, Option<string>) {
    var n := Run(part, "=");
    (part[..n], if n < |part| then Some(part[n + 1..]) else None)
  }

  // `if (!$key)`
  predicate Falsy(key: string) {
    key == "" || key == "0"
  }

  predicate HasBrackets(key: string) {
    '[' in key || ']' in key
  }

  function PutParts(args: Dict<Option<string>>, parts: seq<string>): Dict<Option<string>>
    decreases |parts|
  {
    if parts == [] then args
    else
      var (key, value) := KeyValue(parts[0]);
      PutParts(if Falsy(key) then args else Put(args, key, value), parts[1..])
  }

  function ParsedQuery(s: string): Query {
    if s == "" then NullQuery else Query(false, PutParts([], Explode(s, '&')))
  }

  /** No key of the query has brackets. */
  predicate Flat(query: string) {
    forall part <- Explode(query, '&') :: !HasBrackets(KeyValue(part).0)
  }

  predicate FlatUri(s: string) {
    Match(s).query.Some? ==> Flat(Match(s).query.value)
  }

  /** UriParser::__invoke */
  function ParsedUri(s: string): Uri
    requires FlatUri(s)
  {
    var m := Match(s);
    Uri(
      m.scheme,
      if m.authority.Some? then ParsedAuthority(m.authority.value) else NullAuthority,
      m.path,
      if m.query.Some? then Query(true, ParsedQuery(m.query.value).args) else NullQuery,
      m.fragment)
  }

  // Reading what is printed, part by part

  lemma {:induction false} RunStops(a: string, b: string, stops: string)
    requires (forall i :: 0 <= i < |a| ==> a[i] !in stops) && (b == "" || b[0] in stops)
    ensures Run(a + b, stops) == |a|
  {
    var s := a + b;
    assert forall i :: 0 <= i < |a| ==> s[i] == a[i];
    assert b != "" ==> s[|a|] == b[0];
  }

  predicate Avoids(s: string, stops: string) {
    forall i :: 0 <= i < |s| ==> s[i] !in stops
  }

  function SchemeText(scheme: string): string {
    if scheme != "" then scheme + ":" else ""
  }

  function Prefixed(prefix: string, part: Option<string>): string {
    if part.Some? then prefix + part.value else ""
  }

  function Recomposed(m: Parts): string {
    SchemeText(m.scheme)
    + (Prefixed("//", m.authority) + (m.path + (Prefixed("?", m.query) + Prefixed("#", m.fragment))))
  }

  /** Parts whose text can only be read one way. */
  predicate WellFormedParts(m: Parts) {
    && Avoids(m.scheme, ":/?#")
    && (m.authority.Some? ==> Avoids(m.authority.value, "/?#") && (m.path == "" || m.path[0] == '/'))
    && (m.authority.None? ==> !("//" <= m.path) && (m.scheme == "" ==> ReadScheme(m.path).0 == ""))
    && Avoids(m.path, "?#")
    && (m.query.Some? ==> Avoids(m.query.value, "#"))
  }

  lemma {:induction false} SchemeIsRead(scheme: string, rest: string)
    requires Avoids(scheme, ":/?#") && (scheme == "" ==> ReadScheme(rest).0 == "")
    ensures ReadScheme(SchemeText(scheme) + rest) == (scheme, rest)
  {
    if scheme == "" {
      assert SchemeText(scheme) + rest == rest;
    } else {
      var s := SchemeText(scheme) + rest;
      assert s == scheme + (":" + rest);
      RunStops(scheme, ":" + rest, ":/?#");
      assert s[..|scheme|] == scheme && s[|scheme| + 1..] == rest;
    }
  }

  /** A path before a query, a fragment or the end is no more like a scheme than alone. */
  lemma {:induction false} NoSchemeInPath(path: string, tail: string)
    requires ReadScheme(path).0 == "" && (tail == "" || tail[0] == '?' || tail[0] == '#')
    ensures ReadScheme(path + tail).0 == ""
  {
    var n := Run(path, ":/?#");
    var s := path + tail;
    if n == |path| {
      RunStops(path, tail, ":/?#");
    } else {
      assert s == path[..n] + s[n..] && s[n] == path[n];
      RunStops(path[..n], s[n..], ":/?#");
    }
  }

  lemma {:induction false} AuthorityIsRead(authority: Option<string>, rest: string)
    requires authority.Some? ==> Avoids(authority.value, "/?#") && (rest == "" || rest[0] in "/?#")
    requires authority.None? ==> !("//" <= rest)
    ensures ReadAuthority(Prefixed("//", authority) + rest) == (authority, rest)
  {
    var s := Prefixed("//", authority) + rest;
    if authority.Some? {
      var a := authority.value;
      assert s == "//" + (a + rest);
      assert "//" <= s && s[2..] == a + rest;
      RunStops(a, rest, "/?#");
      assert (a + rest)[..|a|] == a && (a + rest)[|a|..] == rest;
    } else {
      assert s == rest;
    }
  }

  lemma {:induction false} PathIsRead(path: string, rest: string)
    requires Avoids(path, "?#") && (rest == "" || rest[0] in "?#")
    ensures ReadPath(path + rest) == (path, rest)
  {
    RunStops(path, rest, "?#");
    assert (path + rest)[..|path|] == path && (path + rest)[|path|..] == rest;
  }

  lemma {:induction false} QueryIsRead(query: Option<string>, fragment: Option<string>)
    requires query.Some? ==> Avoids(query.value, "#")
    ensures ReadQuery(Prefixed("?", query) + Prefixed("#", fragment)) == (query, Prefixed("#", fragment))
    ensures ReadFragment(Prefixed("#", fragment)) == fragment
  {
    var rest := Prefixed("#", fragment);
    var s := Prefixed("?", query) + rest;
    if query.Some? {
      var q := query.value;
      assert s == "?" + (q + rest);
      assert s[0] == '?' && s[1..] == q + rest;
      RunStops(q, rest, "#");
      assert (q + rest)[..|q|] == q && (q + rest)[|q|..] == rest;
    } else {
      assert s == rest;
    }
    if fragment.Some? {
      assert rest[1..] == fragment.value;
    }
  }

  lemma {:induction false} PartsAreRead(m: Parts)
    requires WellFormedParts(m)
    ensures Match(Recomposed(m)) == m
  {
    hide Run, ReadScheme, ReadAuthority, ReadPath, ReadQuery, ReadFragment, Avoids;
    var fourth := Prefixed("#", m.fragment);
    var third := Prefixed("?", m.query) + fourth;
    var second := m.path + third;
    var first := Prefixed("//", m.authority) + second;
    QueryIsRead(m.query, m.fragment);
    StartOfTail(m.query, m.fragment);
    PathIsRead(m.path, third);
    if m.authority.Some? {
      assert second != "" ==> second[0] in "/?#";
      SlashIsNoScheme(first);
    } else {
      assert first == second;
      NoSlashes(m.path, third);
      if m.scheme == "" {
        NoSchemeInPath(m.path, third);
      }
    }
    AuthorityIsRead(m.authority, second);
    SchemeIsRead(m.scheme, first);
  }

  lemma {:induction false} StartOfTail(query: Option<string>, fragment: Option<string>)
    ensures var tail := Prefixed("?", query) + Prefixed("#", fragment);
            tail != "" ==> tail[0] in "?#" && (tail[0] == '?' || tail[0] == '#') && tail[0] in "/?#"
  {
  }

  lemma {:induction false} SlashIsNoScheme(s: string)
    requires s != "" && s[0] == '/'
    ensures ReadScheme(s).0 == ""
  {
  }

  lemma {:induction false} NoSlashes(path: string, tail: string)
    requires !("//" <= path) && (tail == "" || tail[0] == '?' || tail[0] == '#')
    ensures !("//" <= path + tail)
  {
    var s, n := path + tail, |path|;
    if n >= 2 {
      assert s[..2] == path[..2];
    } else if tail != "" {
      assert s[n] == tail[0] && "//"[n] == '/';
    }
  }

  lemma {:induction false} SplitScheme(s: string)
    ensures SchemeText(ReadScheme(s).0) + ReadScheme(s).1 == s
  {
    var n := Run(s, ":/?#");
    if 0 < n < |s| && s[n] == ':' {
      assert s == s[..n] + ":" + s[n + 1..];
    } else {
      assert "" + s == s;
    }
  }

  lemma {:induction false} Rejoined(prefix: string, tail: string, n: nat)
    requires n <= |tail|
    ensures (prefix + tail[..n]) + tail[n..] == prefix + tail
  {
  }

  lemma {:induction false} SplitAuthority(s: string)
    ensures Prefixed("//", ReadAuthority(s).0) + ReadAuthority(s).1 == s
  {
    if "//" <= s {
      var tail := s[2..];
      assert s == "//" + tail;
      Rejoined("//", tail, Run(tail, "/?#"));
    } else {
      assert "" + s == s;
    }
  }

  lemma {:induction false} SplitPath(s: string)
    ensures ReadPath(s).0 + ReadPath(s).1 == s
    ensures ReadPath(s).1 != "" ==> ReadPath(s).1[0] in "?#"
  {
  }

  lemma {:induction false} SplitQuery(s: string)
    ensures Prefixed("?", ReadQuery(s).0) + ReadQuery(s).1 == s
    ensures s != "" && s[0] in "?#" && ReadQuery(s).1 != "" ==> ReadQuery(s).1[0] == '#'
  {
    if s != "" && s[0] == '?' {
      var tail := s[1..];
      assert s == "?" + tail;
      Rejoined("?", tail, Run(tail, "#"));
    } else {
      assert "" + s == s;
    }
  }

  lemma {:induction false} SplitFragment(s: string)
    requires s != "" ==> s[0] == '#'
    ensures Prefixed("#", ReadFragment(s)) == s
  {
    if s != "" {
      assert s == "#" + s[1..];
    }
  }

  /** Every text is made of the parts that are read from it. */
  lemma {:induction false} EveryTextIsItsParts(s: string)
    ensures Recomposed(Match(s)) == s
  {
    hide ReadScheme, ReadAuthority, ReadPath, ReadQuery, ReadFragment, Run, Prefixed, SchemeText;
    var s1 := ReadScheme(s).1;
    var s2 := ReadAuthority(s1).1;
    var s3 := ReadPath(s2).1;
    var s4 := ReadQuery(s3).1;
    SplitScheme(s);
    SplitAuthority(s1);
    SplitPath(s2);
    SplitQuery(s3);
    NothingFollows(s3);
    SplitFragment(s4);
  }

  lemma {:induction false} NothingFollows(s: string)
    ensures s == "" ==> ReadQuery(s).1 == ""
  {
  }

  // Authorities

  lemma {:induction false} NumberOfDecimal(n: nat)
    ensures Number(Decimal(n)) == n
  {
    if n >= 10 {
      var s := Decimal(n);
      NumberOfDecimal(n / 10);
      assert s[..|s| - 1] == Decimal(n / 10);
    } else {
      assert [Digit(n)][..0] == "";
      assert Number([Digit(n)][..0]) == 0;
    }
  }

  lemma {:induction false} DigitRunStops(a: string, b: string)
    requires AllDigits(a) && (b == "" || !IsDigit(b[0]))
    ensures DigitRun(a + b) == |a|
  {
    var s := a + b;
    assert forall i :: 0 <= i < |a| ==> s[i] == a[i];
    assert b != "" ==> s[|a|] == b[0];
  }

  function PortText(port: Option<string>): string {
    Prefixed(":", port)
  }

  lemma {:induction false} PortIsRead(port: Option<string>)
    requires port.Some? ==> port.value != "" && AllDigits(port.value)
    ensures ReadPort(PortText(port)) == Some(port)
  {
    if port.Some? {
      var d := port.value;
      assert PortText(port)[1..] == d + "";
      DigitRunStops(d, "");
      assert d[..|d|] == d && d[|d|..] == "" && d + "" == d;
    }
  }

  /** Without `@` and line feed, and without a colon outside brackets. */
  predicate GoodHost(host: string) {
    && Avoids(host, "/?#@\n")
    && (':' in host ==> Bracketed(host) == |host|)
  }

  lemma {:induction false} HostIsRead(host: string, port: Option<string>)
    requires GoodHost(host) && (port.Some? ==> port.value != "" && AllDigits(port.value))
    requires host != "" || port.Some?
    ensures ReadHost(host + PortText(port)) == Some((host, port))
  {
    var tail := PortText(port);
    var s := host + tail;
    PortIsRead(port);
    assert tail == "" || tail[0] == ':';
    assert Avoids(tail, "[]");
    BracketsAreRead(host, tail);
    var b := Bracketed(s);
    if b == |host| > 0 {
      assert s[..b] == host && s[b..] == tail;
    } else {
      assert ':' !in host;
      NoColon(host, tail);
      if b > 0 {
        TextInHost(host, tail, b);
      }
    }
  }

  /** After brackets that end inside the host comes neither a port nor the end. */
  lemma {:induction false} TextInHost(host: string, tail: string, b: nat)
    requires GoodHost(host) && ':' !in host && b < |host|
    ensures ReadPort((host + tail)[b..]) == None
  {
    var rest := (host + tail)[b..];
    assert rest[0] == host[b];
    assert host[b] != ':' && host[b] != '\n';
    assert rest != "\n" by { assert "\n"[0] == '\n'; }
  }

  lemma {:induction false} NoColon(host: string, tail: string)
    requires ':' !in host && (tail == "" || tail[0] == ':')
    ensures Run(host + tail, ":") == |host| && (host + tail)[..|host|] == host && (host + tail)[|host|..] == tail
  {
    RunStops(host, tail, ":");
  }

  lemma {:induction false} RunPrefix(a: string, b: string, stops: string)
    requires Avoids(b, stops)
    ensures Run(a, stops) < |a| ==> Run(a + b, stops) == Run(a, stops)
    ensures Run(a, stops) == |a| ==> Run(a + b, stops) == |a + b|
  {
    var n := Run(a, stops);
    if n < |a| {
      assert a + b == a[..n] + (a[n..] + b) && (a[n..] + b)[0] == a[n];
      RunStops(a[..n], a[n..] + b, stops);
    } else {
      assert (a + b) + "" == a + b;
      RunStops(a + b, "", stops);
    }
  }

  /** Brackets at the start of the text are in the host, as none follow it. */
  lemma {:induction false} BracketsAreRead(host: string, tail: string)
    requires Avoids(tail, "[]")
    ensures Bracketed(host + tail) == Bracketed(host)
  {
    var s := host + tail;
    if host == "" {
      assert s == tail;
    } else {
      assert s[0] == host[0] && s[1..] == host[1..] + tail;
      RunPrefix(host[1..], tail, "]");
    }
  }

  predicate GoodAuthority(a: Authority) {
    && (a.host.Some? ==> GoodHost(a.host.value))
    && (a.port.Some? ==> 0 <= a.port.value <= INT_MAX)
  }

  function HostText(a: Authority): string {
    if a.host.Some? then a.host.value else ""
  }

  lemma {:induction false} TextAvoids(host: string, port: Option<string>)
    requires Avoids(host, "/?#@") && (port.Some? ==> AllDigits(port.value))
    ensures Avoids(host + PortText(port), "/?#@")
  {
    var s := host + PortText(port);
    forall i | 0 <= i < |s| ensures s[i] !in "/?#@" {
      if i < |host| {
        assert s[i] == host[i];
      } else if i == |host| {
        assert s[i] == ':';
      } else {
        assert s[i] == port.value[i - |host| - 1];
      }
    }
  }

  lemma {:induction false} AuthorityTextIsRead(a: Authority)
    requires GoodAuthority(a)
    ensures var s := AuthorityText(a);
            && Avoids(s, "/?#")
            && ParsedAuthority(s) == Authority(if s == "" then Some("") else None, Some(HostText(a)), a.port)
  {
    var port := if a.port.Some? then Some(Decimal(a.port.value)) else None;
    var host := HostText(a);
    var s := host + PortText(port);
    assert AuthorityText(a) == s;
    TextAvoids(host, port);
    if s != "" {
      HostIsRead(host, port);
      RunStops(s, "", "@");
      assert s + "" == s;
      if a.port.Some? {
        NumberOfDecimal(a.port.value);
      }
    }
  }

  // Queries

  function Glue(parts: seq<string>): string {
    if parts == [] then "" else "&" + parts[0] + Glue(parts[1..])
  }

  lemma {:induction false} ExplodeOne(first: string, rest: string)
    requires Avoids(first, "&") && (rest == "" || rest[0] == '&')
    ensures rest == "" ==> Explode(first + rest, '&') == [first]
    ensures rest != "" ==> Explode(first + rest, '&') == [first] + Explode(rest[1..], '&')
  {
    var s := first + rest;
    RunStops(first, rest, "&");
    assert s[..|first|] == first;
    if rest == "" {
      assert s == first;
    } else {
      assert s[|first| + 1..] == rest[1..];
    }
  }

  lemma {:induction false} GlueOne(first: string, parts: seq<string>)
    ensures Glue([first] + parts) == "&" + first + Glue(parts)
  {
    assert ([first] + parts)[1..] == parts;
  }

  lemma {:induction false} ExplodeIsGlued(s: string)
    ensures Glue(Explode(s, '&')) == "&" + s
    decreases |s|
  {
    hide Explode, Glue, Run;
    var n := Run(s, "&");
    var first, rest := s[..n], s[n..];
    Joined(s, n);
    ExplodeOne(first, rest);
    if rest == "" {
      GlueOne(first, []);
      GlueNone();
      assert [first] + [] == [first];
    } else {
      ExplodeIsGlued(rest[1..]);
      GlueOne(first, Explode(rest[1..], '&'));
    }
  }

  lemma {:induction false} Joined(s: string, n: nat)
    requires n <= |s|
    ensures s[..n] + s[n..] == s && "&" + s[..n] + s[n..] == "&" + s
    ensures n < |s| && s[n] == '&' ==> "&" + s[n..][1..] == s[n..]
    ensures n == |s| ==> "&" + s[..n] + "" == "&" + s
  {
  }

  lemma {:induction false} GlueNone()
    ensures Glue([]) == ""
  {
  }

  lemma {:induction false} GlueExplodes(parts: seq<string>)
    requires parts != [] && forall i :: 0 <= i < |parts| ==> Avoids(parts[i], "&")
    ensures Glue(parts) != "" && Explode(Glue(parts)[1..], '&') == parts
  {
    hide Avoids, Explode;
    var first, rest := parts[0], Glue(parts[1..]);
    assert Glue(parts)[1..] == first + rest;
    assert Avoids(first, "&");
    assert rest == "" || rest[0] == '&';
    ExplodeOne(first, rest);
    assert parts == [first] + parts[1..];
    if |parts| > 1 {
      GlueExplodes(parts[1..]);
    }
  }

  lemma {:induction false} KeyValueIsRead(arg: (string, Option<string>))
    requires Avoids(arg.0, "=")
    ensures KeyValue(ArgText(arg)) == arg
  {
    var tail := if arg.1.Some? then "=" + arg.1.value else "";
    var s := arg.0 + tail;
    RunStops(arg.0, tail, "=");
    assert s[..|arg.0|] == arg.0;
    if arg.1.Some? {
      assert s[|arg.0| + 1..] == arg.1.value;
    }
  }

  lemma {:induction false} EveryPartIsItsArg(part: string)
    ensures ArgText(KeyValue(part)) == part
  {
    var n := Run(part, "=");
    if n < |part| {
      assert part == part[..n] + "=" + part[n + 1..];
    }
  }

  predicate GoodArg(arg: (string, Option<string>)) {
    && !Falsy(arg.0) && !HasBrackets(arg.0) && Avoids(arg.0, "&=#")
    && (arg.1.Some? ==> Avoids(arg.1.value, "&#"))
  }

  predicate GoodArgs(args: Dict<Option<string>>) {
    && (forall i :: 0 <= i < |args| ==> GoodArg(args[i]))
    && (forall i, j :: 0 <= i < j < |args| ==> args[i].0 != args[j].0)
  }

  function Texts(args: Dict<Option<string>>): (parts: seq<string>)
    ensures |parts| == |args| && forall i :: 0 <= i < |args| ==> parts[i] == ArgText(args[i])
  {
    seq(|args|, i requires 0 <= i < |args| => ArgText(args[i]))
  }

  lemma {:induction false} ArgsTextGlues(args: Dict<Option<string>>)
    ensures ArgsText(args) == Glue(Texts(args))
  {
    if args != [] {
      ArgsTextGlues(args[1..]);
      assert Texts(args)[1..] == Texts(args[1..]);
    }
  }

  lemma {:induction false} PutPartsAppend(done: Dict<Option<string>>, args: Dict<Option<string>>)
    requires GoodArgs(done + args)
    ensures PutParts(done, Texts(args)) == done + args
    decreases |args|
  {
    if args == [] {
      assert done + args == done;
    } else {
      var arg := args[0];
      assert GoodArg((done + args)[|done|]);
      KeyValueIsRead(arg);
      forall i | 0 <= i < |done| ensures done[i].0 != arg.0 {
        assert (done + args)[i].0 != (done + args)[|done|].0;
      }
      PutNew(done, arg.0, arg.1);
      assert (done + [arg]) + args[1..] == done + args;
      PutPartsAppend(done + [arg], args[1..]);
      assert Texts(args)[1..] == Texts(args[1..]) && Texts(args)[0] == ArgText(arg);
      assert (arg.0, arg.1) == arg;
    }
  }

  /** The text of good arguments, without the first `&`. */
  lemma {:induction false} QueryTextIs(args: Dict<Option<string>>)
    requires GoodArgs(args) && args != []
    ensures QueryText(Query(false, args)) == Glue(Texts(args))[1..] != ""
    ensures Avoids(Glue(Texts(args))[1..], "#")
  {
    ArgsTextGlues(args);
    var s := Glue(Texts(args));
    var first := ArgText(args[0]);
    assert s == "&" + first + Glue(Texts(args)[1..]) && s[0] == '&';
    assert GoodArg(args[0]);
    assert first[0] == args[0].0[0] && s[1] == first[0];
    assert s[1..][0] != '&';
    assert TrimLeft(s[1..], '&') == s[1..];
    GlueAvoids(Texts(args));
  }

  lemma {:induction false} GlueAvoids(parts: seq<string>)
    requires forall i :: 0 <= i < |parts| ==> Avoids(parts[i], "#")
    ensures Avoids(Glue(parts), "#")
  {
    if parts != [] {
      GlueAvoids(parts[1..]);
    }
  }

  lemma {:induction false} NoArgs()
    ensures QueryText(Query(false, [])) == "" && QueryText(Query(true, [])) == ""
    ensures Flat("") && ParsedQuery("").args == []
  {
    assert Explode("", '&') == [""] && KeyValue("") == ("", None);
  }

  lemma {:induction false} PartOfTexts(args: Dict<Option<string>>, i: nat)
    requires GoodArgs(args) && i < |args|
    ensures Avoids(Texts(args)[i], "&") && !HasBrackets(KeyValue(Texts(args)[i]).0)
  {
    assert GoodArg(args[i]);
    KeyValueIsRead(args[i]);
  }

  lemma {:induction false} QueryTextIsRead(q: Query)
    requires GoodArgs(q.args)
    ensures Avoids(QueryText(q), "#") && Flat(QueryText(q)) && ParsedQuery(QueryText(q)).args == q.args
  {
    hide Run, KeyValue, GoodArg, HasBrackets, GoodArgs, TrimLeft, Falsy, ArgText;
    if q.args == [] {
      NoArgs();
    } else {
      var parts := Texts(q.args);
      QueryTextIs(q.args);
      forall i | 0 <= i < |parts| ensures Avoids(parts[i], "&") && !HasBrackets(KeyValue(parts[i]).0) {
        PartOfTexts(q.args, i);
      }
      GlueExplodes(parts);
      assert [] + q.args == q.args;
      PutPartsAppend([], q.args);
    }
  }

  // Whole URIs

  /** Components whose text reads back: the rest of their conditions is in section 3 of RFC 3986. */
  predicate WellFormed(u: Uri) {
    && Avoids(u.scheme, ":/?#")
    && Avoids(u.path, "?#")
    && GoodAuthority(u.authority)
    && (if NoAuthority(u.authority) then
          !("//" <= u.path) && (u.scheme == "" ==> ReadScheme(u.path).0 == "")
        else u.path == "" || u.path[0] == '/')
    && GoodArgs(u.query.args)
  }

  function PartsOf(u: Uri): Parts {
    Parts(
      u.scheme,
      if NoAuthority(u.authority) then None else Some(AuthorityText(u.authority)),
      u.path,
      if NoQuery(u.query) then None else Some(QueryText(u.query)),
      u.fragment)
  }

  lemma {:induction false} TextOfParts(u: Uri)
    ensures PrintedUri(u) == Recomposed(PartsOf(u))
  {
    hide AuthorityText, QueryText;
    var m := PartsOf(u);
    RightToLeft(
      SchemeText(m.scheme), Prefixed("//", m.authority), m.path, Prefixed("?", m.query), Prefixed("#", m.fragment));
  }

  lemma {:induction false} RightToLeft(a: string, b: string, c: string, d: string, e: string)
    ensures a + b + c + d + e == a + (b + (c + (d + e)))
  {
    assert a + b + c == a + (b + c);
    var abc := a + (b + c);
    assert abc + d + e == abc + (d + e);
    var de := d + e;
    assert abc + de == a + ((b + c) + de);
    assert (b + c) + de == b + (c + de);
  }

  /**
   Reading the text of well-formed components gives them back. Only what text cannot show
   changes: user information is dropped, an absent host reads as an empty one, and the
   query counts as made from a string.
   */
  lemma {:induction false} PrintedUrisAreRead(u: Uri)
    requires WellFormed(u)
    ensures FlatUri(PrintedUri(u))
    ensures var r := ParsedUri(PrintedUri(u));
            && r.scheme == u.scheme && r.path == u.path && r.fragment == u.fragment
            && r.authority.port == u.authority.port && HostText(r.authority) == HostText(u.authority)
            && (NoAuthority(r.authority) <==> NoAuthority(u.authority))
            && r.query.args == u.query.args && (NoQuery(r.query) <==> NoQuery(u.query))
  {
    hide AuthorityText, QueryText, ReadScheme;
    AuthorityTextIsRead(u.authority);
    QueryTextIsRead(u.query);
    TextOfParts(u);
    PartsAreRead(PartsOf(u));
  }
}