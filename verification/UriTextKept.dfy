/**
 The other direction: which texts come out of reading and printing as they were.
 */
module UriTextKept {
  import opened Wrappers
  import opened UriText

  // Ports

  predicate NoLeadingZero(digits: string) {
    digits == "0" || (digits != "" && digits[0] != '0')
  }

  lemma {:induction false} OneDigit(c: char)
    requires IsDigit(c)
    ensures Number([c]) == Value(c) && Decimal(Number([c])) == [c] && NoLeadingZero([c])
  {
    assert [c][..0] == "" && Number("") == 0;
    assert Digit(Value(c)) == c;
    assert "0"[0] == '0' && (c == '0' ==> [c] == "0");
  }

  lemma {:induction false} OneDigitMore(p: string, c: char)
    requires p != "" && IsDigit(c)
    ensures Number(p + [c]) == 10 * Number(p) + Value(c)
    ensures Number(p) > 0 ==> Decimal(Number(p + [c])) == Decimal(Number(p)) + [c]
    ensures Number(p) == 0 ==> Decimal(Number(p + [c])) == [c]
  {
    assert (p + [c])[..|p|] == p;
    assert Digit(Value(c)) == c;
  }

  lemma {:induction false} DecimalOfNumber(d: string)
    requires d != "" && AllDigits(d)
    ensures |Decimal(Number(d))| <= |d|
    ensures Decimal(Number(d)) == d <==> NoLeadingZero(d)
    decreases |d|
  {
    hide Number, Decimal;
    var p, c := d[..|d| - 1], d[|d| - 1];
    assert d == p + [c];
    if p == "" {
      assert d == [c];
      OneDigit(c);
    } else {
      DecimalOfNumber(p);
      OneDigitMore(p, c);
      assert p[0] == d[0] && d != "0";
      ZeroIsZero(p);
      if Number(p) > 0 {
        var q := Decimal(Number(p));
        assert (q + [c])[..|q|] == q && (p + [c])[..|p|] == p;
      }
    }
  }

  /** Only zeros have the value 0. */
  lemma {:induction false} ZeroIsZero(p: string)
    requires p != ""
    ensures Number(p) == 0 && (Decimal(0) == p <==> NoLeadingZero(p)) ==> p[0] == '0'
    ensures p == "0" ==> Number(p) == 0
  {
    assert Decimal(0) == [Digit(0)] == "0" && "0"[0] == '0';
    assert "0"[..0] == "" && Number("") == 0;
  }

  lemma {:induction false} DecimalGrows(n: nat, m: nat)
    requires n <= m
    ensures |Decimal(n)| <= |Decimal(m)|
    decreases n
  {
    if n >= 10 {
      DecimalGrows(n / 10, m / 10);
    }
  }

  predicate PortKept(digits: string) {
    Number(digits) <= INT_MAX && NoLeadingZero(digits)
  }

  lemma {:induction false} PortOut(d: string)
    requires d != "" && AllDigits(d)
    ensures |IntText(PortNumber(d))| <= |d|
    ensures IntText(PortNumber(d)) == d <==> PortKept(d)
  {
    DecimalOfNumber(d);
    if Number(d) > INT_MAX {
      DecimalGrows(INT_MAX, Number(d));
      NumberOfDecimal(INT_MAX);
    }
  }

  // Authorities

  lemma {:induction false} PortIsAtTheEnd(s: string) returns (end: string)
    requires ReadPort(s).Some?
    ensures AtEnd(end) && s == PortText(ReadPort(s).value) + end
    ensures ReadPort(s).value.Some? ==> ReadPort(s).value.value != "" && AllDigits(ReadPort(s).value.value)
  {
    if s != "" && s[0] == ':' {
      var n := DigitRun(s[1..]);
      end := s[1..][n..];
      assert s == ":" + s[1..] && s[1..] == s[1..][..n] + end;
    } else {
      end := s;
      assert "" + s == s;
    }
  }

  lemma {:induction false} AfterHost(s: string, n: nat) returns (end: string)
    requires n <= |s| && ReadPort(s[n..]).Some?
    ensures AtEnd(end) && s == s[..n] + PortText(ReadPort(s[n..]).value) + end
  {
    hide PortText, ReadPort;
    end := PortIsAtTheEnd(s[n..]);
    assert s == s[..n] + s[n..];
  }

  lemma {:induction false} HostThenPort(s: string) returns (end: string)
    requires ReadHost(s).Some?
    ensures var (host, port) := ReadHost(s).value;
            && AtEnd(end) && s == host + PortText(port) + end
            && (port.Some? ==> port.value != "" && AllDigits(port.value))
  {
    hide PortText, ReadPort, AtEnd, AllDigits;
    var b, n := Bracketed(s), Run(s, ":");
    var k := if b > 0 && ReadPort(s[b..]).Some? then b else if n > 0 && ReadPort(s[n..]).Some? then n else 0;
    assert s[..0] == "" && s[0..] == s;
    var _ := PortIsAtTheEnd(s[k..]);
    end := AfterHost(s, k);
  }

  predicate HasUserInfo(a: string) {
    Run(a, "@") < |a| && ReadHost(a[Run(a, "@") + 1..]).Some?
  }

  /** A host and a port up to the last character, and no user information. */
  predicate AuthorityKept(a: string) {
    || a == ""
    || (&& !HasUserInfo(a) && ReadHost(a).Some?
        && (var (host, port) := ReadHost(a).value;
            |host| + |PortText(port)| == |a| && (port.Some? ==> PortKept(port.value))))
  }

  lemma {:induction false} HostTextOut(userInfo: Option<string>, s: string)
    requires ReadHost(s).Some?
    ensures var text := AuthorityText(MkAuthority(userInfo, ReadHost(s).value));
            var (host, port) := ReadHost(s).value;
            && |text| <= |s|
            && (text == s <==> |host| + |PortText(port)| == |s| && (port.Some? ==> PortKept(port.value)))
  {
    var end := HostThenPort(s);
    var (host, port) := ReadHost(s).value;
    var text := AuthorityText(MkAuthority(userInfo, (host, port)));
    if port.Some? {
      var d := IntText(PortNumber(port.value));
      PortOut(port.value);
      assert text == host + (":" + d);
      assert s == host + (":" + port.value) + end;
      if text == s {
        assert |end| == 0 && end == "";
        assert text[|host|..] == ":" + d && s[|host|..] == ":" + port.value;
        assert (":" + d)[1..] == d && (":" + port.value)[1..] == port.value;
      }
      if |host| + |PortText(port)| == |s| {
        assert end == "" && s == host + (":" + port.value);
      }
    } else {
      assert text == host && s == host + end;
    }
  }

  lemma {:induction false} EmptyAuthority()
    ensures AuthorityText(Authority(Some(""), Some(""), None)) == ""
  {
  }

  lemma {:induction false} AuthorityOut(a: string)
    ensures var r := ParsedAuthority(a);
            && (!NoAuthority(r) ==> |AuthorityText(r)| <= |a|)
            && (!NoAuthority(r) && AuthorityText(r) == a <==> AuthorityKept(a))
  {
    hide ReadHost, AuthorityText, PortText;
    EmptyAuthority();
    var at := Run(a, "@");
    if a != "" {
      if HasUserInfo(a) {
        HostTextOut(Some(a[..at]), a[at + 1..]);
      } else if ReadHost(a).Some? {
        HostTextOut(None, a);
      }
    }
  }

  // Queries

  function Key(part: string): string {
    KeyValue(part).0
  }

  /** No part is dropped: every key is a true value of PHP and comes once. */
  predicate KeysKept(parts: seq<string>) {
    && (forall i :: 0 <= i < |parts| ==> !Falsy(Key(parts[i])))
    && (forall i, j :: 0 <= i < j < |parts| ==> Key(parts[i]) != Key(parts[j]))
  }

  predicate QueryKept(q: string) {
    q == "" || KeysKept(Explode(q, '&'))
  }

  predicate Among(args: Dict<Option<string>>, key: string) {
    exists i :: 0 <= i < |args| && args[i].0 == key
  }

  lemma {:induction false} ArgsTextAppend(args: Dict<Option<string>>, arg: (string, Option<string>))
    ensures ArgsText(args + [arg]) == ArgsText(args) + "&" + ArgText(arg)
  {
    if args == [] {
      assert [arg][1..] == [];
    } else {
      assert (args + [arg])[1..] == args[1..] + [arg];
      ArgsTextAppend(args[1..], arg);
    }
  }

  lemma {:induction false} PutText(args: Dict<Option<string>>, key: string, v: Option<string>)
    ensures !Among(args, key) ==> ArgsText(Put(args, key, v)) == ArgsText(args) + "&" + ArgText((key, v))
    ensures Among(args, key) ==> |ArgsText(Put(args, key, v))| <= |ArgsText(args)| + |ArgText((key, v))|
  {
    hide Among, ArgText;
    if args == [] {
      Nothing(key);
      ArgsTextAppend(args, (key, v));
    } else {
      AmongRest(args, key);
      var rest := args[1..];
      if args[0].0 == key {
        var new' := [(key, v)] + rest;
        assert new'[1..] == rest;
        assert ArgsText(new') == "&" + ArgText((key, v)) + ArgsText(rest);
      } else {
        PutText(rest, key, v);
        var new' := [args[0]] + Put(rest, key, v);
        assert new'[1..] == Put(rest, key, v);
        assert ArgsText(new') == "&" + ArgText(args[0]) + ArgsText(Put(rest, key, v));
      }
    }
  }

  lemma {:induction false} PutAmong(args: Dict<Option<string>>, key: string, v: Option<string>, k: string)
    ensures Among(Put(args, key, v), k) <==> Among(args, k) || k == key
  {
    hide Among;
    Nothing(k);
    var new' := Put(args, key, v);
    AmongRest(new', k);
    if args == [] {
      assert new'[1..] == [];
    } else {
      AmongRest(args, k);
      if args[0].0 == key {
        assert new'[1..] == args[1..];
      } else {
        PutAmong(args[1..], key, v, k);
        assert new'[1..] == Put(args[1..], key, v);
      }
    }
  }

  lemma {:induction false} PutOut(args: Dict<Option<string>>, key: string, v: Option<string>)
    ensures !Among(args, key) ==> ArgsText(Put(args, key, v)) == ArgsText(args) + "&" + ArgText((key, v))
    ensures Among(args, key) ==> |ArgsText(Put(args, key, v))| <= |ArgsText(args)| + |ArgText((key, v))|
    ensures forall k :: Among(Put(args, key, v), k) <==> Among(args, k) || k == key
  {
    PutText(args, key, v);
    forall k ensures Among(Put(args, key, v), k) <==> Among(args, k) || k == key {
      PutAmong(args, key, v, k);
    }
  }

  lemma {:induction false} Nothing(k: string)
    ensures !Among([], k)
  {
  }

  lemma {:induction false} AmongRest(args: Dict<Option<string>>, k: string)
    requires args != []
    ensures Among(args, k) <==> args[0].0 == k || Among(args[1..], k)
  {
    if Among(args, k) {
      var i :| 0 <= i < |args| && args[i].0 == k;
      assert i > 0 ==> args[1..][i - 1].0 == k;
    }
    if Among(args[1..], k) {
      var i :| 0 <= i < |args[1..]| && args[1..][i].0 == k;
      assert args[i + 1].0 == k;
    }
  }

  /** Every key is new, and comes once. */
  predicate NewKeys(args: Dict<Option<string>>, parts: seq<string>) {
    KeysKept(parts) && forall i :: 0 <= i < |parts| ==> !Among(args, Key(parts[i]))
  }

  lemma {:induction false} PutPartsOut(args: Dict<Option<string>>, parts: seq<string>)
    ensures |ArgsText(PutParts(args, parts))| <= |ArgsText(args)| + |Glue(parts)|
    ensures NewKeys(args, parts) ==> ArgsText(PutParts(args, parts)) == ArgsText(args) + Glue(parts)
    ensures !NewKeys(args, parts) ==> |ArgsText(PutParts(args, parts))| < |ArgsText(args)| + |Glue(parts)|
    decreases |parts|
  {
    if parts == [] {
      assert ArgsText(args) + "" == ArgsText(args);
    } else {
      hide NewKeys, Put, Among, KeyValue, ArgsText, Falsy, ArgText;
      var (key, v) := KeyValue(parts[0]);
      var next := if Falsy(key) then args else Put(args, key, v);
      PutOut(args, key, v);
      EveryPartIsItsArg(parts[0]);
      PutPartsOut(next, parts[1..]);
      NewKeysStep(args, parts, v);
      Lengths(
        ArgsText(args), ArgsText(next), ArgsText(PutParts(args, parts)), parts[0], Glue(parts[1..]),
        !Falsy(key) && !Among(args, key), NewKeys(Put(args, key, v), parts[1..]));
    }
  }

  lemma {:induction false} Lengths(
    before: string, mid: string, after: string, part: string, rest: string, first: bool, others: bool
  )
    requires first ==> mid == before + "&" + part
    requires !first ==> |mid| <= |before| + |part|
    requires |after| <= |mid| + |rest|
    requires first && others ==> after == mid + rest
    requires first && !others ==> |after| < |mid| + |rest|
    ensures |after| <= |before| + |"&" + part + rest|
    ensures first && others ==> after == before + ("&" + part + rest)
    ensures !(first && others) ==> |after| < |before| + |"&" + part + rest|
  {
    assert (before + "&" + part) + rest == before + ("&" + part + rest);
  }

  lemma {:induction false} NewKeysStep(args: Dict<Option<string>>, parts: seq<string>, v: Option<string>)
    requires parts != []
    ensures var key := Key(parts[0]);
            NewKeys(args, parts) <==> !Falsy(key) && !Among(args, key) && NewKeys(Put(args, key, v), parts[1..])
  {
    var key := Key(parts[0]);
    var rest := parts[1..];
    PutOut(args, key, v);
    forall i | 0 <= i < |rest| ensures rest[i] == parts[i + 1] {
    }
    if NewKeys(args, parts) {
      forall i | 0 <= i < |rest| ensures !Among(Put(args, key, v), Key(rest[i])) {
        assert Key(parts[0]) != Key(parts[i + 1]);
      }
    }
    if !Falsy(key) && !Among(args, key) && NewKeys(Put(args, key, v), rest) {
      forall i | 0 <= i < |parts| ensures !Falsy(Key(parts[i])) && !Among(args, Key(parts[i]))
        ensures i > 0 ==> Key(parts[i]) != key
      {
        if i > 0 {
          assert rest[i - 1] == parts[i] && !Among(Put(args, key, v), Key(rest[i - 1]));
        }
      }
      forall i, j | 0 <= i < j < |parts| ensures Key(parts[i]) != Key(parts[j]) {
        if i > 0 {
          assert Key(rest[i - 1]) != Key(rest[j - 1]);
        }
      }
    }
  }

  predicate PlainKey(key: string) {
    key != "" && Avoids(key, "&")
  }

  predicate PlainKeys(args: Dict<Option<string>>) {
    forall i :: 0 <= i < |args| ==> PlainKey(args[i].0)
  }

  lemma {:induction false} PutPartsKeys(args: Dict<Option<string>>, parts: seq<string>)
    requires PlainKeys(args) && forall i :: 0 <= i < |parts| ==> Avoids(parts[i], "&")
    ensures PlainKeys(PutParts(args, parts))
    decreases |parts|
  {
    if parts != [] {
      var (key, v) := KeyValue(parts[0]);
      assert Avoids(parts[0], "&");
      if Falsy(key) {
        PutPartsKeys(args, parts[1..]);
      } else {
        assert PlainKey(key);
        PutKeys(args, key, v);
        PutPartsKeys(Put(args, key, v), parts[1..]);
      }
    }
  }

  lemma {:induction false} PutKeys(args: Dict<Option<string>>, key: string, v: Option<string>)
    requires PlainKeys(args) && PlainKey(key)
    ensures PlainKeys(Put(args, key, v))
  {
    if args != [] {
      assert PlainKey(args[0].0);
      var rest := args[1..];
      assert forall i :: 0 <= i < |rest| ==> rest[i] == args[i + 1];
      if args[0].0 != key {
        PutKeys(rest, key, v);
      }
    }
  }

  lemma {:induction false} ExplodedParts(s: string)
    ensures forall i :: 0 <= i < |Explode(s, '&')| ==> Avoids(Explode(s, '&')[i], "&")
    decreases |s|
  {
    if Run(s, "&") < |s| {
      ExplodedParts(s[Run(s, "&") + 1..]);
    }
  }

  /** One ampersand is trimmed. */
  lemma {:induction false} TrimsOne(args: Dict<Option<string>>)
    requires args != [] && PlainKey(args[0].0)
    ensures |ArgsText(args)| > 0 && TrimLeft(ArgsText(args), '&') == ArgsText(args)[1..]
  {
    var s := ArgsText(args);
    assert s == "&" + (ArgText(args[0]) + ArgsText(args[1..]));
    var rest := s[1..];
    assert rest == ArgText(args[0]) + ArgsText(args[1..]);
    assert rest[0] == args[0].0[0];
    assert TrimLeft(rest, '&') == rest;
  }

  lemma {:induction false} QueryOut(q: string)
    ensures var text := QueryText(Query(true, ParsedQuery(q).args));
            |text| <= |q| && (text == q <==> QueryKept(q))
  {
    if q != "" {
      hide TrimLeft, ArgsText, Glue, KeysKept, Run, PutParts;
      var parts := Explode(q, '&');
      var args := PutParts([], parts);
      ExplodeIsGlued(q);
      ExplodedParts(q);
      PutPartsOut([], parts);
      PutPartsKeys([], parts);
      NoArgsText();
      assert NewKeys([], parts) <==> KeysKept(parts);
      assert ("&" + q)[1..] == q && "" + ("&" + q) == "&" + q;
      if args != [] {
        TrimsOne(args);
      }
    } else {
      NoArgs();
    }
  }

  lemma {:induction false} NoArgsText()
    ensures ArgsText([]) == "" && TrimLeft("", '&') == ""
  {
  }

  // Whole texts

  lemma {:induction false} PiecesAgree(a: string, b: string, b': string, c: string, d: string, d': string, e: string)
    requires |b'| <= |b| && |d'| <= |d|
    ensures a + (b' + (c + (d' + e))) == a + (b + (c + (d + e))) <==> b' == b && d' == d
  {
    var s, s' := a + (b + (c + (d + e))), a + (b' + (c + (d' + e)));
    if s' == s {
      assert |b'| == |b| && |d'| == |d|;
      var i := |a|;
      var k := |a| + |b| + |c|;
      assert b == s[i..i + |b|] && b' == s'[i..i + |b|];
      assert d == s[k..k + |d|] && d' == s'[k..k + |d|];
    }
  }

  /** A text is printed as it was read exactly when nothing in its authority and query is dropped. */
  lemma {:induction false} TextsAreKeptExactlyWhere(s: string)
    requires FlatUri(s)
    ensures PrintedUri(ParsedUri(s)) == s
       <==> (&& (Match(s).authority.Some? ==> AuthorityKept(Match(s).authority.value))
             && (Match(s).query.Some? ==> QueryKept(Match(s).query.value)))
  {
    hide Match, AuthorityKept, QueryKept, AuthorityText, QueryText, ParsedAuthority, ParsedQuery, NoAuthority;
    var m := Match(s);
    var m' := PartsOf(ParsedUri(s));
    TextOfParts(ParsedUri(s));
    EveryTextIsItsParts(s);
    if m.authority.Some? {
      AuthorityOut(m.authority.value);
    }
    if m.query.Some? {
      QueryOut(m.query.value);
    }
    NoAuthorityAtAll();
    PiecesAgree(
      SchemeText(m.scheme), Prefixed("//", m.authority), Prefixed("//", m'.authority), m.path,
      Prefixed("?", m.query), Prefixed("?", m'.query), Prefixed("#", m.fragment));
    SamePrefix("//", m.authority, m'.authority);
    SamePrefix("?", m.query, m'.query);
  }

  lemma {:induction false} NoAuthorityAtAll()
    ensures NoAuthority(NullAuthority)
  {
  }

  lemma {:induction false} SamePrefix(prefix: string, a: Option<string>, b: Option<string>)
    requires prefix != ""
    ensures Prefixed(prefix, a) == Prefixed(prefix, b) <==> a == b
  {
    if a.Some? && b.Some? {
      assert (prefix + a.value)[|prefix|..] == a.value && (prefix + b.value)[|prefix|..] == b.value;
    }
  }

  // Two texts that come out changed

  lemma {:induction false} PortWithZero()
    ensures ReadHost("h:080") == Some(("h", Some("080"))) && !PortKept("080") && Run("h:080", "@") == 5
  {
    RunStops("h", ":080", ":");
    assert "h:080" == "h" + ":080" && "h:080"[1..] == ":080" && ":080"[1..] == "080" && "h:080"[..1] == "h";
    assert DigitRun("080") == 3;
    assert "080"[3..] == "" && "080"[..3] == "080";
    assert "080"[0] == '0' && "080" != "0";
  }

  lemma {:induction false} RepeatedKey()
    ensures !QueryKept("a&a") && Flat("a&a")
  {
    RunStops("a", "&a", ['&']);
    assert "a&a" == "a" + "&a" && "a&a"[..1] == "a" && "a&a"[1 + 1..] == "a";
    assert Run("a", ['&']) == 1 && Run("a", "=") == 1;
    assert Explode("a", '&') == ["a"] && Explode("a&a", '&') == ["a"] + ["a"];
    assert Key("a") == "a"[..1] == "a";
    assert ["a"] + ["a"] == ["a", "a"] && ["a", "a"][0] == ["a", "a"][1];
  }

  /** A port with a zero in front and a key that comes again are not printed as they were read. */
  lemma {:induction false} TextsThatChange()
    ensures FlatUri("//h:080") && PrintedUri(ParsedUri("//h:080")) != "//h:080"
    ensures FlatUri("?a&a") && PrintedUri(ParsedUri("?a&a")) != "?a&a"
  {
    hide Match, AuthorityKept, QueryKept, ReadHost, Explode, KeyValue, Run;
    var port := Parts("", Some("h:080"), "", None, None);
    var key := Parts("", None, "", Some("a&a"), None);
    assert Recomposed(port) == "//h:080" && Recomposed(key) == "?a&a";
    EmptyHasNoScheme();
    PartsAreRead(port);
    PartsAreRead(key);
    ZeroIsNotKept();
    RepeatedKey();
    TextsAreKeptExactlyWhere("//h:080");
    TextsAreKeptExactlyWhere("?a&a");
  }

  lemma {:induction false} EmptyHasNoScheme()
    ensures ReadScheme("") == ("", "")
  {
  }

  lemma {:induction false} ZeroIsNotKept()
    ensures !AuthorityKept("h:080")
  {
    hide ReadHost, PortKept;
    PortWithZero();
  }
}
