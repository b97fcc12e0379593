/** The protected API endpoint and the test whether a request lies below it
    (grantdeck/settings.py:46-66, apps/authz/views.py:64-81). */
module Endpoint {
  import opened Common

  // ---------- the parts of urllib.parse this needs ----------

  datatype Url = Url(scheme: string, netloc: string, path: string, query: string, fragment: string)

  function LowerChar(c: char): char { if 'A' <= c <= 'Z' then c + ('a' - 'A') else c }

  function Lower(s: string): (r: string)
    ensures |r| == |s| && forall i :: 0 <= i < |s| ==> r[i] == LowerChar(s[i])
  {
    if s == "" then "" else [LowerChar(s[0])] + Lower(s[1..])
  }

  function Before(s: string, c: char): string { s[..Find(s, c)] }

  function After(s: string, c: char): string { if Find(s, c) < |s| then s[Find(s, c) + 1..] else "" }

  function Min(a: nat, b: nat): nat { if a <= b then a else b }

  predicate IsNewlineOrTab(c: char) { c == '\t' || c == '\r' || c == '\n' }

  function DropControls(s: string): string { if s != "" && s[0] <= ' ' then DropControls(s[1..]) else s }

  function RemoveNewlinesAndTabs(s: string): string {
    if s == "" then ""
    else (if IsNewlineOrTab(s[0]) then "" else [s[0]]) + RemoveNewlinesAndTabs(s[1..])
  }

  predicate IsLetter(c: char) { 'a' <= c <= 'z' || 'A' <= c <= 'Z' }

  predicate IsSchemeChar(c: char) { IsLetter(c) || IsDigit(c) || c == '+' || c == '-' || c == '.' }

  predicate HasScheme(s: string) {
    var n := Find(s, ':');
    0 < n < |s| && IsLetter(s[0]) && forall i :: 0 <= i < n ==> IsSchemeChar(s[i])
  }

  function NetlocLength(s: string): (n: nat)
    ensures n <= |s| && (n < |s| ==> s[n] == '/' || s[n] == '?' || s[n] == '#')
    ensures forall i :: 0 <= i < n ==> s[i] != '/' && s[i] != '?' && s[i] != '#'
  {
    Min(Find(s, '/'), Min(Find(s, '?'), Find(s, '#')))
  }

  /** urlsplit; None for the ValueError of an unbalanced bracket in the authority. */
  function UrlSplit(url: string): Option<Url> {
    var s := RemoveNewlinesAndTabs(DropControls(url));
    if HasScheme(s) then SplitRest(Lower(Before(s, ':')), After(s, ':')) else SplitRest("", s)
  }

  function SplitRest(scheme: string, rest: string): Option<Url> {
    if "//" <= rest then
      var n := NetlocLength(rest[2..]);
      SplitTail(scheme, rest[2..][..n], rest[2..][n..])
    else SplitTail(scheme, "", rest)
  }

  function SplitTail(scheme: string, netloc: string, tail: string): Option<Url> {
    if ('[' in netloc) != (']' in netloc) then None
    else Some(Url(scheme, netloc, Before(Before(tail, '#'), '?'), After(Before(tail, '#'), '?'), After(tail, '#')))
  }

  /** urlunsplit for a URL with an authority, without query and fragment. */
  function UrlUnsplit(scheme: string, netloc: string, path: string): string {
    var rooted := if path != "" && path[0] != '/' then "/" + path else path;
    (if scheme != "" then scheme + ":" else "") + "//" + netloc + rooted
  }

  function UserInfo(netloc: string): Option<string>
    decreases |netloc|
  {
    if netloc == "" then None
    else if netloc[|netloc| - 1] == '@' then Some(netloc[..|netloc| - 1])
    else UserInfo(netloc[..|netloc| - 1])
  }

  function HostInfo(netloc: string): string {
    match UserInfo(netloc) case None => netloc case Some(u) => if |u| + 1 <= |netloc| then netloc[|u| + 1..] else ""
  }

  function HostName(netloc: string): string { HostOf(HostInfo(netloc)) }

  function HostOf(host: string): string {
    if '[' in host then Before(After(host, '['), ']') else Before(host, ':')
  }

  predicate HasCredentials(netloc: string) {
    match UserInfo(netloc) case None => false case Some(u) => Before(u, ':') != "" || After(u, ':') != ""
  }

  function StripSlashes(path: string): (r: string)
    ensures r <= path && (r != "" ==> r[|r| - 1] != '/') && forall i :: |r| <= i < |path| ==> path[i] == '/'
  {
    if path != "" && path[|path| - 1] == '/' then StripSlashes(path[..|path| - 1]) else path
  }

  function NormalPath(path: string): string { if StripSlashes(path) == "" then "/" else StripSlashes(path) }

  predicate IsHttp(scheme: string) { scheme == "http" || scheme == "https" }

  // ---------- the setting and the test ----------

  /** api_endpoint() on the configured value; an error is ImproperlyConfigured or ValueError. */
  function ApiEndpoint(value: string): Result<string, ()> {
    match UrlSplit(value)
    case None => Err(())
    case Some(p) =>
      if !IsHttp(p.scheme) || HostName(p.netloc) == "" || HasCredentials(p.netloc) || p.query != "" || p.fragment != ""
      then Err(())
      else Ok(UrlUnsplit(Lower(p.scheme), Lower(p.netloc), NormalPath(p.path)))
  }

  /** _protected_url */
  function ProtectedUrl(endpoint: string, protectedPath: string): string {
    var path := if protectedPath != "" then "/" + protectedPath else "/";
    match UrlSplit(endpoint) case None => path case Some(e) => UrlUnsplit(e.scheme, e.netloc, path)
  }

  /** _matches_api_endpoint */
  predicate MatchesApiEndpoint(endpoint: string, url: string) {
    match (UrlSplit(endpoint), UrlSplit(url))
    case (Some(e), Some(c)) =>
      && c.scheme == e.scheme && c.netloc == e.netloc
      && (NormalPath(e.path) == "/" || NormalPath(c.path) == NormalPath(e.path) || NormalPath(e.path) + "/" <= NormalPath(c.path))
    case _ => false
  }

  // ---------- splitting what was joined ----------

  ghost predicate PlainText(netloc: string) {
    && netloc != ""
    && forall i :: 0 <= i < |netloc| ==>
         !IsNewlineOrTab(netloc[i]) && netloc[i] != '/' && netloc[i] != '?' && netloc[i] != '#'
  }

  ghost predicate PlainNetloc(netloc: string) { PlainText(netloc) && (('[' in netloc) == (']' in netloc)) }

  ghost predicate PlainPath(path: string) {
    && path != "" && path[0] == '/'
    && forall i :: 0 <= i < |path| ==> !IsNewlineOrTab(path[i]) && path[i] != '?' && path[i] != '#'
  }

  /** The path that remains of a rooted text once it has been through a URL. */
  function PathPart(path: string): string { Before(Before(RemoveNewlinesAndTabs(path), '#'), '?') }

  lemma {:induction false} RemoveAppend(a: string, b: string)
    ensures RemoveNewlinesAndTabs(a + b) == RemoveNewlinesAndTabs(a) + RemoveNewlinesAndTabs(b)
  {
    if a == "" {
      assert a + b == b;
    } else {
      assert (a + b)[0] == a[0] && (a + b)[1..] == a[1..] + b;
      RemoveAppend(a[1..], b);
    }
  }

  lemma {:induction false} RemoveNothing(s: string)
    requires forall i :: 0 <= i < |s| ==> !IsNewlineOrTab(s[i])
    ensures RemoveNewlinesAndTabs(s) == s
  {
    if s == "" {
    } else {
      RemoveNothing(s[1..]);
      assert s == [s[0]] + s[1..];
    }
  }

  lemma {:induction false} RemovedIsClean(s: string)
    ensures forall i :: 0 <= i < |RemoveNewlinesAndTabs(s)| ==> !IsNewlineOrTab(RemoveNewlinesAndTabs(s)[i])
  {
    if s == "" {
    } else {
      RemovedIsClean(s[1..]);
    }
  }

  lemma LowerHttp(scheme: string)
    requires IsHttp(scheme)
    ensures Lower(scheme) == scheme
  {
  }

  lemma JoinedText(scheme: string, netloc: string, path: string)
    requires IsHttp(scheme) && PlainText(netloc) && path != "" && path[0] == '/'
    ensures RemoveNewlinesAndTabs(DropControls(UrlUnsplit(scheme, netloc, path)))
            == scheme + ":" + ("//" + (netloc + RemoveNewlinesAndTabs(path)))
  {
    var head := scheme + ":" + ("//" + netloc);
    assert UrlUnsplit(scheme, netloc, path) == head + path;
    assert DropControls(head + path) == head + path;
    HeadIsClean(scheme, netloc);
    RemoveNothing(head);
    RemoveAppend(head, path);
    assert head + RemoveNewlinesAndTabs(path) == scheme + ":" + ("//" + (netloc + RemoveNewlinesAndTabs(path)));
  }

  lemma HeadIsClean(scheme: string, netloc: string)
    requires IsHttp(scheme) && PlainText(netloc)
    ensures var head := scheme + ":" + ("//" + netloc);
            forall i :: 0 <= i < |head| ==> !IsNewlineOrTab(head[i])
  {
  }

  lemma SchemeOf(scheme: string, rest: string)
    requires IsHttp(scheme)
    ensures var s := scheme + ":" + rest;
            HasScheme(s) && Lower(Before(s, ':')) == scheme && After(s, ':') == rest
  {
    var s := scheme + ":" + rest;
    assert forall i :: 0 <= i < |scheme| ==> s[i] == scheme[i];
    FindIs(s, ':', |scheme|);
    assert Before(s, ':') == scheme;
    LowerHttp(scheme);
  }

  lemma AuthorityOf(netloc: string, tail: string)
    requires PlainText(netloc) && tail != "" && tail[0] == '/'
    ensures var rest := "//" + (netloc + tail);
            && "//" <= rest && NetlocLength(rest[2..]) == |netloc|
            && rest[2..][..|netloc|] == netloc && rest[2..][|netloc|..] == tail
  {
    var rest := "//" + (netloc + tail);
    assert rest[2..] == netloc + tail;
    FindIs(netloc + tail, '/', |netloc|);
  }

  /** Joining scheme, authority and rooted path and splitting again gives the scheme and the authority back,
      and the path up to its first '?' or '#', without tabs and line ends. */
  lemma SplitOfJoined(scheme: string, netloc: string, path: string)
    requires IsHttp(scheme) && PlainNetloc(netloc) && path != "" && path[0] == '/'
    ensures var u := UrlSplit(UrlUnsplit(scheme, netloc, path));
            u.Some? && u.value.scheme == scheme && u.value.netloc == netloc && u.value.path == PathPart(path)
    ensures PlainPath(path) ==>
              UrlSplit(UrlUnsplit(scheme, netloc, path)) == Some(Url(scheme, netloc, path, "", ""))
  {
    var clean := RemoveNewlinesAndTabs(path);
    JoinedText(scheme, netloc, path);
    SchemeOf(scheme, "//" + (netloc + clean));
    AuthorityOf(netloc, clean);
    if PlainPath(path) {
      RemoveNothing(path);
      WholeTail(path);
    }
  }

  lemma WholeTail(path: string)
    requires forall i :: 0 <= i < |path| ==> path[i] != '?' && path[i] != '#'
    ensures Before(path, '#') == path && After(path, '#') == "" && Before(path, '?') == path && After(path, '?') == ""
  {
  }

  // ---------- the setting is in normal form ----------

  /** What every configured endpoint looks like once accepted. */
  ghost predicate Normal(endpoint: string, u: Url) {
    && IsHttp(u.scheme) && PlainNetloc(u.netloc) && PlainPath(u.path)
    && NormalPath(u.path) == u.path
    && endpoint == UrlUnsplit(u.scheme, u.netloc, u.path) && UrlSplit(endpoint) == Some(u)
    && u.query == "" && u.fragment == ""
  }

  lemma SplitIsClean(url: string)
    requires UrlSplit(url).Some? && UrlSplit(url).value.netloc != ""
    ensures PlainNetloc(UrlSplit(url).value.netloc)
    ensures UrlSplit(url).value.path == "" || PlainPath(UrlSplit(url).value.path)
  {
    var s := RemoveNewlinesAndTabs(DropControls(url));
    RemovedIsClean(DropControls(url));
    if HasScheme(s) {
      RestIsClean(Lower(Before(s, ':')), After(s, ':'));
    } else {
      RestIsClean("", s);
    }
  }

  lemma RestIsClean(scheme: string, rest: string)
    requires SplitRest(scheme, rest).Some? && SplitRest(scheme, rest).value.netloc != ""
    requires forall i :: 0 <= i < |rest| ==> !IsNewlineOrTab(rest[i])
    ensures PlainNetloc(SplitRest(scheme, rest).value.netloc)
    ensures var path := SplitRest(scheme, rest).value.path; path == "" || PlainPath(path)
  {
    var body := rest[2..];
    assert forall i :: 0 <= i < |body| ==> !IsNewlineOrTab(body[i]);
    TailIsClean(body[NetlocLength(body)..]);
  }

  lemma TailIsClean(tail: string)
    requires forall i :: 0 <= i < |tail| ==> !IsNewlineOrTab(tail[i])
    requires tail != "" ==> tail[0] == '/' || tail[0] == '?' || tail[0] == '#'
    ensures var path := Before(Before(tail, '#'), '?'); path == "" || PlainPath(path)
  {
  }

  lemma LowerKeepsNetloc(netloc: string)
    ensures PlainNetloc(netloc) ==> PlainNetloc(Lower(netloc))
    ensures Lower(Lower(netloc)) == Lower(netloc)
  {
  }

  lemma LowerKeepsCredentials(netloc: string)
    ensures HasCredentials(Lower(netloc)) == HasCredentials(netloc)
  {
    LowerUserInfo(netloc);
    match UserInfo(netloc)
    case None =>
    case Some(u) => LowerFind(u, ':');
  }

  lemma LowerHostInfo(netloc: string)
    ensures HostInfo(Lower(netloc)) == Lower(HostInfo(netloc))
  {
    LowerUserInfo(netloc);
    match UserInfo(netloc)
    case None =>
    case Some(u) => if |u| + 1 <= |netloc| { LowerDrop(netloc, |u| + 1); }
  }

  lemma LowerDrop(s: string, n: nat)
    requires n <= |s|
    ensures Lower(s)[n..] == Lower(s[n..])
  {
  }

  lemma LowerKeepsHost(netloc: string)
    ensures HostName(Lower(netloc)) == "" <==> HostName(netloc) == ""
  {
    LowerHostInfo(netloc);
    LowerHostOf(HostInfo(netloc));
  }

  lemma LowerHostOf(host: string)
    ensures HostOf(Lower(host)) == "" <==> HostOf(host) == ""
  {
    LowerKeepsMembers(host, '[');
    if '[' in host {
      LowerAfter(host, '[');
      LowerFind(After(host, '['), ']');
    } else {
      LowerFind(host, ':');
    }
  }

  lemma LowerAfter(s: string, c: char)
    requires LowerChar(c) == c && !('a' <= c <= 'z')
    ensures After(Lower(s), c) == Lower(After(s, c))
  {
    LowerFind(s, c);
  }

  lemma LowerFind(s: string, c: char)
    requires LowerChar(c) == c && !('a' <= c <= 'z')
    ensures Find(Lower(s), c) == Find(s, c)
  {
  }

  lemma LowerKeepsMembers(s: string, c: char)
    requires LowerChar(c) == c && !('a' <= c <= 'z')
    ensures c in Lower(s) <==> c in s
  {
  }

  lemma {:induction false} LowerUserInfo(netloc: string)
    ensures UserInfo(Lower(netloc)) == match UserInfo(netloc) case None => None case Some(u) => Some(Lower(u))
    decreases |netloc|
  {
    if netloc == "" {
    } else {
      var front := netloc[..|netloc| - 1];
      assert Lower(netloc)[..|netloc| - 1] == Lower(front);
      LowerUserInfo(front);
    }
  }

  lemma StripSlashesOf(path: string)
    requires path == "" || PlainPath(path)
    ensures PlainPath(NormalPath(path)) && NormalPath(NormalPath(path)) == NormalPath(path)
  {
  }

  /** An accepted endpoint is in normal form, and accepting it again changes nothing. */
  lemma EndpointIsNormal(value: string)
    requires ApiEndpoint(value).Ok?
    ensures var e := ApiEndpoint(value).value;
            && UrlSplit(e).Some? && Normal(e, UrlSplit(e).value) && ApiEndpoint(e) == Ok(e)
            && HostName(UrlSplit(e).value.netloc) != "" && !HasCredentials(UrlSplit(e).value.netloc)
  {
    var p := UrlSplit(value).value;
    assert p.netloc != "";
    SplitIsClean(value);
    LowerKeepsNetloc(p.netloc);
    LowerKeepsHost(p.netloc);
    LowerKeepsCredentials(p.netloc);
    LowerHttp(p.scheme);
    StripSlashesOf(p.path);
    SplitOfJoined(p.scheme, Lower(p.netloc), NormalPath(p.path));
  }

  /** ASCII letters are lowered and nothing else is changed. */
  lemma LowerCharIs(c: char)
    ensures forall i :: 0 <= i < 26 && c == "ABCDEFGHIJKLMNOPQRSTUVWXYZ"[i] ==> LowerChar(c) == "abcdefghijklmnopqrstuvwxyz"[i]
    ensures (forall i :: 0 <= i < 26 ==> c != "ABCDEFGHIJKLMNOPQRSTUVWXYZ"[i]) ==> LowerChar(c) == c
  {
    var upper, lower := "ABCDEFGHIJKLMNOPQRSTUVWXYZ", "abcdefghijklmnopqrstuvwxyz";
    assert forall i :: 0 <= i < 26 ==> upper[i] as int == 65 + i && lower[i] as int == 97 + i;
    if 'A' <= c <= 'Z' { assert c == upper[c as int - 65]; }
  }

  /** A path without its trailing slashes, or the root if there is nothing else. */
  lemma NormalPathIs(core: string, slashes: string)
    requires forall i :: 0 <= i < |slashes| ==> slashes[i] == '/'
    requires core != "" ==> core[|core| - 1] != '/'
    ensures NormalPath(core + slashes) == if core == "" then "/" else core
  {
    var path := core + slashes;
    var r := StripSlashes(path);
    assert forall i :: |core| <= i < |path| ==> path[i] == '/';
    assert r != "" ==> r[|r| - 1] == path[|r| - 1];
    assert core != "" ==> path[|core| - 1] == core[|core| - 1];
    assert |r| == |core|;
    assert r == path[..|core|] == core;
  }

  /** The host of an authority: what follows the last '@', without the port. */
  lemma HostIs(user: string, name: string, port: string)
    requires '@' !in name && '@' !in port && ':' !in name && '[' !in name && '[' !in port
    ensures HostName(name) == name && HostName(name + ":" + port) == name
    ensures HostName(user + "@" + name) == name && HostName(user + "@" + (name + ":" + port)) == name
  {
    NoCredentials(name);
    NoCredentials(name + ":" + port);
    LastAt(user, name);
    LastAt(user, name + ":" + port);
    assert (user + "@" + name)[|user| + 1..] == name;
    assert (user + "@" + (name + ":" + port))[|user| + 1..] == name + ":" + port;
    FindIs(name, ':', |name|);
    FindIs(name + ":" + port, ':', |name|);
    assert (name + ":" + port)[..|name|] == name;
    assert '[' !in name + ":" + port;
  }

  lemma {:induction false} NoCredentials(host: string)
    requires '@' !in host
    ensures UserInfo(host) == None && HostInfo(host) == host && !HasCredentials(host)
    decreases |host|
  {
    if host == "" {
    } else {
      NoCredentials(host[..|host| - 1]);
    }
  }

  /** An authority with one bracket and not the other is no URL at all. */
  lemma UnbalancedIsRefused(scheme: string, netloc: string, path: string)
    requires IsHttp(scheme) && PlainText(netloc) && path != "" && path[0] == '/' && ('[' in netloc) != (']' in netloc)
    ensures ApiEndpoint(UrlUnsplit(scheme, netloc, path)) == Err(())
  {
    var clean := RemoveNewlinesAndTabs(path);
    JoinedText(scheme, netloc, path);
    SchemeOf(scheme, "//" + (netloc + clean));
    AuthorityOf(netloc, clean);
  }

  /** Spaces and control characters before a URL do not matter, nor do tabs and line ends anywhere in it. */
  lemma IgnoredCharacters(c: char, a: string, b: string)
    ensures c <= ' ' ==> UrlSplit([c] + a) == UrlSplit(a)
    ensures c in {'\t', '\n', '\r'} && a != "" && a[0] > ' ' ==> UrlSplit(a + [c] + b) == UrlSplit(a + b)
  {
    assert ([c] + a)[0] == c && ([c] + a)[1..] == a;
    if c in {'\t', '\n', '\r'} && a != "" && a[0] > ' ' {
      assert DropControls(a + [c] + b) == a + [c] + b && DropControls(a + b) == a + b;
      RemoveAppend(a + [c], b);
      RemoveAppend(a, [c]);
      RemoveAppend(a, b);
      OneCharacter(c);
      assert RemoveNewlinesAndTabs(a) + "" == RemoveNewlinesAndTabs(a);
    }
  }

  /** A query or a fragment is refused. */
  lemma ExtrasAreRefused(scheme: string, netloc: string, path: string, mark: char, extra: string)
    requires IsHttp(scheme) && PlainNetloc(netloc) && PlainPath(path) && extra != "" && '#' !in extra
    requires (mark == '?' || mark == '#') && forall i :: 0 <= i < |extra| ==> !IsNewlineOrTab(extra[i])
    ensures ApiEndpoint(UrlUnsplit(scheme, netloc, path + [mark] + extra)) == Err(())
  {
    var whole := path + [mark] + extra;
    RemoveNothing(whole);
    JoinedText(scheme, netloc, whole);
    SchemeOf(scheme, "//" + (netloc + whole));
    AuthorityOf(netloc, whole);
    MarkSplits(path, mark, extra);
  }

  lemma MarkSplits(path: string, mark: char, extra: string)
    requires PlainPath(path) && '#' !in extra && (mark == '?' || mark == '#')
    ensures var whole := path + [mark] + extra;
            (mark == '#' ==> After(whole, '#') == extra) && (mark == '?' ==> After(Before(whole, '#'), '?') == extra)
  {
    var whole := path + [mark] + extra;
    assert forall i :: 0 <= i < |path| ==> whole[i] == path[i];
    if mark == '#' {
      FindIs(whole, '#', |path|);
    } else {
      assert forall i :: |path| < i < |whole| ==> whole[i] == extra[i - |path| - 1];
      FindIs(whole, '#', |whole|);
      FindIs(whole, '?', |path|);
    }
  }

  /** Only "http" and "https", in any mixture of cases, are accepted, and the accepted endpoint says which. */
  lemma AcceptedScheme(value: string)
    requires ApiEndpoint(value).Ok?
    ensures UrlSplit(value).Some? && (UrlSplit(value).value.scheme == "http" || UrlSplit(value).value.scheme == "https")
    ensures UrlSplit(value).value.scheme + "://" <= ApiEndpoint(value).value
  {
    var p := UrlSplit(value).value;
    LowerHttp(p.scheme);
    UnsplitStarts(p.scheme, Lower(p.netloc), NormalPath(p.path));
  }

  lemma UnsplitStarts(scheme: string, netloc: string, path: string)
    requires scheme != ""
    ensures scheme + "://" <= UrlUnsplit(scheme, netloc, path)
  {
    var rooted := if path != "" && path[0] != '/' then "/" + path else path;
    assert UrlUnsplit(scheme, netloc, path) == scheme + "://" + (netloc + rooted);
  }

  /** Of the URLs made of an HTTP scheme, an authority and a plain path, exactly those that name a host and
      carry no credentials are accepted. */
  lemma EndpointOf(scheme: string, netloc: string, path: string)
    requires (scheme == "http" || scheme == "https") && PlainNetloc(netloc) && PlainPath(path)
    ensures ApiEndpoint(UrlUnsplit(scheme, netloc, path)) ==
            if HostName(netloc) == "" || HasCredentials(netloc) then Err(())
            else Ok(UrlUnsplit(scheme, Lower(netloc), NormalPath(path)))
  {
    SplitOfJoined(scheme, netloc, path);
    LowerHttp(scheme);
  }

  lemma {:induction false} LastAt(user: string, host: string)
    requires '@' !in host
    ensures UserInfo(user + "@" + host) == Some(user)
    decreases |host|
  {
    var s := user + "@" + host;
    if host == "" {
      assert s[..|s| - 1] == user;
    } else {
      assert s[..|s| - 1] == user + "@" + host[..|host| - 1];
      LastAt(user, host[..|host| - 1]);
    }
  }

  /** What precedes the last '@' counts as credentials unless it is empty or a lone ':'. */
  lemma CredentialsOf(user: string, host: string)
    requires '@' !in host
    ensures HasCredentials(user + "@" + host) <==> user != "" && user != ":"
  {
    LastAt(user, host);
    assert Find(user, ':') == 0 <==> user == "" || user[0] == ':';
  }

  // ---------- the test is a test on path segments ----------

  function SplitSlash(s: string): seq<string>
    decreases |s|
  {
    if Find(s, '/') == |s| then [s] else [Before(s, '/')] + SplitSlash(After(s, '/'))
  }

  /** The segments of a rooted path, trailing slashes dropped; the root has none. */
  function Segments(path: string): seq<string> {
    if StripSlashes(path) == "" then [] else SplitSlash(StripSlashes(path)[1..])
  }

  lemma PrefixBeforeSlash(a: string, b: string)
    ensures a + "/" <= b <==> |a| < |b| && b[..|a|] == a && b[|a|] == '/'
  {
  }

  /** a equals b or is followed in b by a slash. */
  predicate Below(a: string, b: string) { a == b || (|a| < |b| && b[..|a|] == a && b[|a|] == '/') }

  lemma {:induction false} SegmentPrefix(a: string, b: string)
    ensures SplitSlash(a) <= SplitSlash(b) <==> Below(a, b)
    decreases |a|
  {
    var m, n := Find(a, '/'), Find(b, '/');
    if m == |a| {
      NoSlashPrefix(a, b);
    } else if n == |b| {
      assert !Below(a, b) by { assert a[m] == '/' && forall i :: 0 <= i < |b| ==> b[i] != '/'; }
      assert |SplitSlash(b)| == 1 && |SplitSlash(a)| >= 2;
    } else {
      SegmentPrefix(After(a, '/'), After(b, '/'));
      HeadAndTail(a, b);
      SegmentHeads(a, b);
    }
  }

  lemma NoSlashPrefix(a: string, b: string)
    requires Find(a, '/') == |a|
    ensures SplitSlash(a) <= SplitSlash(b) <==> Below(a, b)
  {
    var n := Find(b, '/');
    assert SplitSlash(a) == [a] && SplitSlash(b)[0] == b[..n];
    if |a| < |b| && b[..|a|] == a && b[|a|] == '/' {
      assert forall i :: 0 <= i < |a| ==> b[i] == a[i];
      FindIs(b, '/', |a|);
    }
  }

  lemma BelowShift(h: string, s: string, t: string)
    ensures Below(h + s, h + t) <==> Below(s, t)
  {
    assert (h + s)[|h|..] == s && (h + t)[|h|..] == t;
    if |s| < |t| {
      assert (h + t)[..|h + s|] == h + t[..|s|];
      assert (h + t[..|s|])[|h|..] == t[..|s|];
    }
  }

  lemma SplitAt(a: string, m: nat)
    requires m < |a|
    ensures a == a[..m] + [a[m]] + a[m + 1..]
  {
  }

  lemma AtFirstSlash(a: string)
    requires Find(a, '/') < |a|
    ensures a == Before(a, '/') + "/" + After(a, '/')
  {
    SplitAt(a, Find(a, '/'));
  }

  /** The first slash of a is also the first of whatever continues a. */
  lemma SameHead(a: string, b: string)
    requires Find(a, '/') < |a| && Below(a, b)
    ensures Before(a, '/') == Before(b, '/') && Find(b, '/') < |b|
  {
    var m := Find(a, '/');
    if a != b {
      assert b == a + b[|a|..];
      assert forall i :: 0 <= i <= m ==> b[i] == a[i];
      FindIs(b, '/', m);
    }
  }

  lemma HeadAndTail(a: string, b: string)
    requires Find(a, '/') < |a| && Find(b, '/') < |b|
    ensures Below(a, b) <==> Before(a, '/') == Before(b, '/') && Below(After(a, '/'), After(b, '/'))
  {
    if Below(a, b) { SameHead(a, b); }
    if Before(a, '/') == Before(b, '/') {
      AtFirstSlash(a);
      AtFirstSlash(b);
      BelowShift(Before(a, '/') + "/", After(a, '/'), After(b, '/'));
    }
  }

  lemma SegmentHeads(a: string, b: string)
    requires Find(a, '/') < |a| && Find(b, '/') < |b|
    ensures SplitSlash(a) <= SplitSlash(b) <==>
            Before(a, '/') == Before(b, '/') && SplitSlash(After(a, '/')) <= SplitSlash(After(b, '/'))
  {
    ConsPrefix(Before(a, '/'), SplitSlash(After(a, '/')), Before(b, '/'), SplitSlash(After(b, '/')));
  }

  lemma ConsPrefix(x: string, xs: seq<string>, y: string, ys: seq<string>)
    ensures [x] + xs <= [y] + ys <==> x == y && xs <= ys
  {
    if [x] + xs <= [y] + ys {
      assert ([x] + xs)[0] == ([y] + ys)[0];
      assert forall i :: 0 <= i < |xs| ==> xs[i] == ([x] + xs)[i + 1] && ys[i] == ([y] + ys)[i + 1];
    }
  }

  /** Whether a request is below the endpoint is decided by its path segments alone: the endpoint's must be
      a prefix of the request's, read up to the first '?' or '#' and without tabs and line ends. */
  lemma MatchIsSegmentPrefix(value: string, protectedPath: string)
    requires ApiEndpoint(value).Ok?
    ensures var e := ApiEndpoint(value).value;
            && UrlSplit(e).Some? && UrlSplit(ProtectedUrl(e, protectedPath)).Some?
            && UrlSplit(ProtectedUrl(e, protectedPath)).value.scheme == UrlSplit(e).value.scheme
            && UrlSplit(ProtectedUrl(e, protectedPath)).value.netloc == UrlSplit(e).value.netloc
            && (MatchesApiEndpoint(e, ProtectedUrl(e, protectedPath)) <==>
                Segments(UrlSplit(e).value.path) <= Segments(PathPart("/" + protectedPath)))
    ensures PlainPath("/" + protectedPath) ==> PathPart("/" + protectedPath) == "/" + protectedPath
  {
    EndpointIsNormal(value);
    MatchOfNormal(ApiEndpoint(value).value, UrlSplit(ApiEndpoint(value).value).value, protectedPath);
    if PlainPath("/" + protectedPath) {
      RemoveNothing("/" + protectedPath);
      WholeTail("/" + protectedPath);
    }
  }

  lemma MatchOfNormal(e: string, u: Url, protectedPath: string)
    requires Normal(e, u)
    ensures var c := UrlSplit(ProtectedUrl(e, protectedPath));
            c.Some? && c.value.scheme == u.scheme && c.value.netloc == u.netloc
    ensures MatchesApiEndpoint(e, ProtectedUrl(e, protectedPath)) <==>
            Segments(u.path) <= Segments(PathPart("/" + protectedPath))
  {
    var path := "/" + protectedPath;
    assert ProtectedUrl(e, protectedPath) == UrlUnsplit(u.scheme, u.netloc, path);
    SplitOfJoined(u.scheme, u.netloc, path);
    RootedPart(protectedPath);
    SegmentsCompare(u.path, PathPart(path));
  }

  /** The path a request is judged by: without tabs and line ends, up to the first '?' or '#', and otherwise
      as it stands. */
  lemma PathPartIs(a: string, c: char, b: string)
    ensures (forall i :: 0 <= i < |a| ==> a[i] !in {'\t', '\n', '\r', '?', '#'}) ==> PathPart(a) == a
    ensures c in {'\t', '\n', '\r'} ==> PathPart(a + [c] + b) == PathPart(a + b)
    ensures c in {'?', '#'} ==> PathPart(a + [c] + b) == PathPart(a)
  {
    if forall i :: 0 <= i < |a| ==> a[i] !in {'\t', '\n', '\r', '?', '#'} {
      RemoveNothing(a);
      WholeTail(a);
    }
    RemoveAppend(a + [c], b);
    RemoveAppend(a, [c]);
    RemoveAppend(a, b);
    OneCharacter(c);
    var x, y := RemoveNewlinesAndTabs(a), RemoveNewlinesAndTabs(b);
    if c in {'\t', '\n', '\r'} { assert x + "" + y == x + y; }
    if c in {'?', '#'} { CutAtMark(x, c, y); }
  }

  lemma OneCharacter(c: char)
    ensures RemoveNewlinesAndTabs([c]) == if c in {'\t', '\n', '\r'} then "" else [c]
  {
    assert [c][1..] == "";
    assert [c] + "" == [c];
  }

  lemma CutAtMark(x: string, c: char, y: string)
    requires c == '?' || c == '#'
    ensures Before(Before(x + [c] + y, '#'), '?') == Before(Before(x, '#'), '?')
  {
    BeforeConcatenation(x, [c] + y, '#');
    assert x + [c] + y == x + ([c] + y);
    if '#' !in x {
      if c == '#' {
        FindIs(x + [c] + y, '#', |x|);
        FindIs(x, '#', |x|);
      } else {
        FindIs(x, '#', |x|);
        assert Before(x + [c] + y, '#') == x + ([c] + y)[..Find([c] + y, '#')];
        var z := ([c] + y)[..Find([c] + y, '#')];
        assert z != "" && z[0] == '?';
        BeforeConcatenation(x, z, '?');
        if '?' !in x {
          FindIs(x + z, '?', |x|);
          FindIs(x, '?', |x|);
        }
      }
    }
  }

  lemma BeforeConcatenation(x: string, y: string, c: char)
    ensures c in x ==> Before(x + y, c) == Before(x, c)
    ensures c !in x ==> Before(x + y, c) == x + Before(y, c)
  {
    if c in x {
      FindIs(x + y, c, Find(x, c));
    } else {
      FindIs(x + y, c, |x| + Find(y, c));
    }
  }

  lemma RootedPart(protectedPath: string)
    ensures PathPart("/" + protectedPath) != "" && PathPart("/" + protectedPath)[0] == '/'
  {
  }

  lemma SegmentsCompare(a: string, b: string)
    requires a != "" && a[0] == '/' && b != "" && b[0] == '/'
    ensures Segments(a) <= Segments(b) <==>
            NormalPath(a) == "/" || NormalPath(b) == NormalPath(a) || NormalPath(a) + "/" <= NormalPath(b)
  {
    var s, t := StripSlashes(a), StripSlashes(b);
    PrefixBeforeSlash(NormalPath(a), NormalPath(b));
    if s != "" && t != "" {
      assert s[0] == '/' && t[0] == '/';
      SegmentPrefix(s[1..], t[1..]);
      assert Below(s, t) <==> Below(s[1..], t[1..]) by { BelowTail(s, t); }
    }
  }

  lemma BelowTail(s: string, t: string)
    requires s != "" && t != "" && s[0] == t[0]
    ensures Below(s, t) <==> Below(s[1..], t[1..])
  {
  }
}
