/** Standard URLs (src/googleurl/url_parse.cc, src/googleurl/url_parse_internal.h).

    The functions say where the components are; the methods scan for them. A character stands
    for one byte of a signed `char`. */
module UrlParse {
  import opened NumberConversions

  /** A range of the text; a length of -1 says that the component is absent. */
  datatype Component = Component(begin: int, len: int) {
    function End(): int {
      begin + len
    }

    predicate IsValid() {
      len != -1
    }

    predicate IsNonempty() {
      len > 0
    }
  }

  const NONE := Component(0, -1)

  function MakeRange(begin: int, end: int): Component {
    Component(begin, end - begin)
  }

  datatype Parsed = Parsed(
    scheme: Component, username: Component, password: Component, host: Component, port: Component,
    path: Component, query: Component, ref: Component)

  // ---- Character classes and searches ----------------------------------------------------

  const SLASHES := {'/', '\\'}
  const AUTHORITY_ENDS := {'/', '\\', '?', '#'}

  /** Spaces and control characters; bytes above 127 are negative and so compare lower. */
  predicate ShouldTrim(c: char) {
    c <= ' ' || c as int >= 128
  }

  /** The first place from `lo` with one of the characters, or `hi`. */
  function Next(s: string, lo: int, hi: int, cs: set<char>): (i: int)
    requires 0 <= lo <= hi <= |s|
    ensures lo <= i <= hi && (i < hi ==> s[i] in cs)
    ensures forall k :: lo <= k < i ==> s[k] !in cs
    decreases hi - lo
  {
    if lo == hi || s[lo] in cs then lo else Next(s, lo + 1, hi, cs)
  }

  /** The last place before `hi` with one of the characters, or `lo - 1`. */
  function Prev(s: string, lo: int, hi: int, cs: set<char>): (i: int)
    requires 0 <= lo <= hi <= |s|
    ensures lo - 1 <= i < hi && (i >= lo ==> s[i] in cs)
    ensures forall k :: i < k < hi ==> s[k] !in cs
    decreases hi - lo
  {
    if lo == hi || s[hi - 1] in cs then hi - 1 else Prev(s, lo, hi - 1, cs)
  }

  function TrimBegin(s: string, lo: int, hi: int): (i: int)
    requires 0 <= lo <= hi <= |s|
    ensures lo <= i <= hi && (i < hi ==> !ShouldTrim(s[i]))
    ensures forall k :: lo <= k < i ==> ShouldTrim(s[k])
    decreases hi - lo
  {
    if lo == hi || !ShouldTrim(s[lo]) then lo else TrimBegin(s, lo + 1, hi)
  }

  function TrimEnd(s: string, lo: int, hi: int): (i: int)
    requires 0 <= lo <= hi <= |s|
    ensures lo <= i <= hi && (lo < i ==> !ShouldTrim(s[i - 1]))
    ensures forall k :: i <= k < hi ==> ShouldTrim(s[k])
    decreases hi - lo
  {
    if lo == hi || !ShouldTrim(s[hi - 1]) then hi else TrimEnd(s, lo, hi - 1)
  }

  function SlashesEnd(s: string, lo: int, hi: int): (i: int)
    requires 0 <= lo <= hi <= |s|
    ensures lo <= i <= hi && (i < hi ==> s[i] !in SLASHES)
    ensures forall k :: lo <= k < i ==> s[k] in SLASHES
    decreases hi - lo
  {
    if lo == hi || s[lo] !in SLASHES then lo else SlashesEnd(s, lo + 1, hi)
  }

  // ---- Where the components are ----------------------------------------------------------

  function UserInfo(s: string, lo: int, hi: int): (r: (Component, Component))
    requires 0 <= lo <= hi <= |s|
  {
    var colon := Next(s, lo, hi, {':'});
    if colon < hi then (MakeRange(lo, colon), MakeRange(colon + 1, hi)) else (MakeRange(lo, hi), NONE)
  }

  /** The last colon starts the port, unless it lies inside the brackets of an IPv6 literal. */
  function ServerInfo(s: string, lo: int, hi: int): (r: (Component, Component))
    requires 0 <= lo <= hi <= |s|
  {
    if lo == hi then (NONE, NONE)
    else
      var bracket := Prev(s, lo, hi, {']'});
      var colon := Prev(s, lo, hi, {':'});
      var ipv6Terminator := if bracket >= lo then bracket else if s[lo] == '[' then hi else -1;
      if colon >= lo && colon > ipv6Terminator then
        (if colon == lo then NONE else MakeRange(lo, colon), MakeRange(colon + 1, hi))
      else (MakeRange(lo, hi), NONE)
  }

  datatype Authority = Authority(username: Component, password: Component, host: Component, port: Component)

  /** The last @ separates the user from the server. */
  function AuthorityParts(s: string, lo: int, hi: int): Authority
    requires 0 <= lo <= hi <= |s|
  {
    var at := Prev(s, lo, hi, {'@'});
    if at >= lo then
      var user := UserInfo(s, lo, at);
      var server := ServerInfo(s, at + 1, hi);
      Authority(user.0, user.1, server.0, server.1)
    else
      var server := ServerInfo(s, lo, hi);
      Authority(NONE, NONE, server.0, server.1)
  }

  datatype FullPath = FullPath(path: Component, query: Component, ref: Component)

  /** The first # starts the reference, the first ? before it the query. */
  function PathParts(s: string, lo: int, hi: int): FullPath
    requires 0 <= lo <= hi <= |s|
  {
    var hash := Next(s, lo, hi, {'#'});
    var mark := Next(s, lo, hash, {'?'});
    FullPath(
      if mark == lo then NONE else MakeRange(lo, mark),
      if mark < hash then MakeRange(mark + 1, hash) else NONE,
      if hash < hi then MakeRange(hash + 1, hi) else NONE)
  }

  function SchemePart(s: string, lo: int, hi: int): (c: Component)
    requires 0 <= lo <= hi <= |s|
  {
    var colon := Next(s, lo, hi, {':'});
    if colon < hi then MakeRange(lo, colon) else NONE
  }

  function AfterScheme(s: string, lo: int, hi: int): (i: int)
    requires 0 <= lo <= hi <= |s|
    ensures lo <= i <= hi
  {
    var colon := Next(s, lo, hi, {':'});
    if colon < hi then colon + 1 else lo
  }

  function StandardURL(s: string): Parsed {
    var lo := TrimBegin(s, 0, |s|);
    var hi := TrimEnd(s, lo, |s|);
    var afterSlashes := SlashesEnd(s, AfterScheme(s, lo, hi), hi);
    var endAuth := Next(s, afterSlashes, hi, AUTHORITY_ENDS);
    var a := AuthorityParts(s, afterSlashes, endAuth);
    var p := PathParts(s, endAuth, hi);
    Parsed(SchemePart(s, lo, hi), a.username, a.password, a.host, a.port, p.path, p.query, p.ref)
  }

  // ---- Nothing is lost -------------------------------------------------------------------

  /** A present component lies within the bounds. */
  predicate Within(c: Component, lo: int, hi: int) {
    c.IsValid() ==> lo <= c.begin && 0 <= c.len && c.End() <= hi
  }

  function Text(s: string, c: Component): string
    requires Within(c, 0, |s|)
  {
    if c.IsValid() then s[c.begin..c.End()] else ""
  }

  /** A component with the separator in front of it, if it is present. */
  function After(separator: string, s: string, c: Component): string
    requires Within(c, 0, |s|)
  {
    if c.IsValid() then separator + Text(s, c) else ""
  }

  function Before(separator: string, s: string, c: Component): string
    requires Within(c, 0, |s|)
  {
    if c.IsValid() then Text(s, c) + separator else ""
  }

  function Components(p: Parsed): seq<Component> {
    [p.scheme, p.username, p.password, p.host, p.port, p.path, p.query, p.ref]
  }

  /** The present components follow each other without overlap. */
  ghost predicate InOrder(cs: seq<Component>) {
    forall i, j :: 0 <= i < j < |cs| && cs[i].IsValid() && cs[j].IsValid() ==> cs[i].End() <= cs[j].begin
  }

  lemma UserInfoTiles(s: string, lo: int, hi: int)
    requires 0 <= lo <= hi <= |s|
    ensures var u := UserInfo(s, lo, hi);
            && Within(u.0, lo, hi) && Within(u.1, lo, hi) && u.0.IsValid()
            && Text(s, u.0) + After(":", s, u.1) == s[lo..hi]
            && InOrder([u.0, u.1])
  {
    hide Text, After;
    var colon := Next(s, lo, hi, {':'});
    WithSeparator(s, colon, hi, ':');
    Join2(s, lo, colon, hi);
    assert Text(s, MakeRange(lo, colon)) == s[lo..colon] by { PlainText(s, lo, colon); }
  }

  lemma PlainText(s: string, lo: int, hi: int)
    requires 0 <= lo <= hi <= |s|
    ensures Text(s, MakeRange(lo, hi)) == s[lo..hi]
  {
  }

  lemma ServerInfoTiles(s: string, lo: int, hi: int)
    requires 0 <= lo <= hi <= |s|
    ensures var r := ServerInfo(s, lo, hi);
            && Within(r.0, lo, hi) && Within(r.1, lo, hi)
            && Text(s, r.0) + After(":", s, r.1) == s[lo..hi]
            && InOrder([r.0, r.1])
  {
    hide Text, After;
    var colon := Prev(s, lo, hi, {':'});
    if ServerInfo(s, lo, hi).1.IsValid() {
      WithSeparator(s, colon, hi, ':');
      RangeText(s, lo, colon);
      Join2(s, lo, colon, hi);
    } else {
      WithSeparator(s, hi, hi, ':');
      RangeText(s, lo, hi);
      Join2(s, lo, hi, hi);
    }
  }

  lemma JoinAt(s: string, lo: int, i: int, hi: int)
    requires 0 <= lo <= i < hi <= |s| && s[i] == '@'
    ensures s[lo..i] + "@" + s[i + 1..hi] == s[lo..hi]
  {
  }

  lemma Join2(s: string, lo: int, i: int, hi: int)
    requires 0 <= lo <= i <= hi <= |s|
    ensures s[lo..i] + s[i..hi] == s[lo..hi]
  {
  }

  function UserText(s: string, username: Component, password: Component): string
    requires Within(username, 0, |s|) && Within(password, 0, |s|)
  {
    if username.IsValid() then Text(s, username) + After(":", s, password) + "@" else ""
  }

  lemma FourInOrder(a: Component, b: Component, c: Component, d: Component, lo: int, mid: int, hi: int)
    requires InOrder([a, b]) && InOrder([c, d])
    requires Within(a, lo, mid) && Within(b, lo, mid) && Within(c, mid, hi) && Within(d, mid, hi)
    ensures InOrder([a, b, c, d])
  {
    assert a.IsValid() && b.IsValid() ==> [a, b][0].End() <= [a, b][1].begin;
    assert c.IsValid() && d.IsValid() ==> [c, d][0].End() <= [c, d][1].begin;
  }

  lemma NothingInOrder()
    ensures InOrder([NONE, NONE])
  {
  }

  lemma WithinWider(c: Component, lo: int, mid: int, hi: int)
    requires Within(c, lo, mid) && mid <= hi
    ensures Within(c, lo, hi)
  {
  }

  lemma AuthorityTiles(s: string, lo: int, hi: int)
    requires 0 <= lo <= hi <= |s|
    ensures var a := AuthorityParts(s, lo, hi);
            && Within(a.username, lo, hi) && Within(a.password, lo, hi) && Within(a.host, lo, hi) && Within(a.port, lo, hi)
            && InOrder([a.username, a.password, a.host, a.port])
            && UserText(s, a.username, a.password) + (Text(s, a.host) + After(":", s, a.port)) == s[lo..hi]
  {
    hide UserInfo, ServerInfo, Text, After, InOrder, Prev;
    var at := Prev(s, lo, hi, {'@'});
    if at >= lo {
      UserInfoTiles(s, lo, at);
      ServerInfoTiles(s, at + 1, hi);
      var u, r := UserInfo(s, lo, at), ServerInfo(s, at + 1, hi);
      assert AuthorityParts(s, lo, hi) == Authority(u.0, u.1, r.0, r.1);
      assert UserText(s, u.0, u.1) == s[lo..at] + "@";
      hide AuthorityParts, UserText;
      WithinWider(u.0, lo, at, hi);
      WithinWider(u.1, lo, at, hi);
      FourInOrder(u.0, u.1, r.0, r.1, lo, at, hi);
      JoinAt(s, lo, at, hi);
    } else {
      ServerInfoTiles(s, lo, hi);
      var r := ServerInfo(s, lo, hi);
      assert InOrder([NONE, NONE]) by { NothingInOrder(); }
      FourInOrder(NONE, NONE, r.0, r.1, lo, lo, hi);
      assert "" + s[lo..hi] == s[lo..hi];
    }
  }

  lemma PathTiles(s: string, lo: int, hi: int)
    requires 0 <= lo <= hi <= |s|
    ensures var p := PathParts(s, lo, hi);
            && Within(p.path, lo, hi) && Within(p.query, lo, hi) && Within(p.ref, lo, hi)
            && InOrder([p.path, p.query, p.ref])
            && Text(s, p.path) + (After("?", s, p.query) + After("#", s, p.ref)) == s[lo..hi]
  {
    hide Text, After;
    var hash := Next(s, lo, hi, {'#'});
    var mark := Next(s, lo, hash, {'?'});
    WithSeparator(s, hash, hi, '#');
    WithSeparator(s, mark, hash, '?');
    RangeText(s, lo, mark);
    Join2(s, mark, hash, hi);
    Join2(s, lo, mark, hi);
  }

  /** A component behind its separator, or nothing where there is no room for either. */
  lemma WithSeparator(s: string, i: int, hi: int, c: char)
    requires 0 <= i <= hi <= |s| && (i < hi ==> s[i] == c)
    ensures After([c], s, if i < hi then MakeRange(i + 1, hi) else NONE) == s[i..hi]
  {
    if i < hi { assert s[i..hi] == [c] + s[i + 1..hi]; } else { assert s[i..hi] == ""; }
  }

  lemma RangeText(s: string, lo: int, hi: int)
    requires 0 <= lo <= hi <= |s|
    ensures Text(s, if hi == lo then NONE else MakeRange(lo, hi)) == s[lo..hi]
  {
  }

  ghost predicate AllWithin(p: Parsed, lo: int, hi: int) {
    forall c :: c in Components(p) ==> Within(c, lo, hi)
  }

  /** The components with their separators, and the given slashes after the scheme. */
  ghost function Rejoined(s: string, p: Parsed, slashes: string): string
    requires AllWithin(p, 0, |s|)
  {
    assert forall c :: c in [p.scheme, p.username, p.password, p.host, p.port, p.path, p.query, p.ref] ==> Within(c, 0, |s|);
    Before(":", s, p.scheme) + (slashes + (
      (UserText(s, p.username, p.password) + (Text(s, p.host) + After(":", s, p.port)))
      + (Text(s, p.path) + (After("?", s, p.query) + After("#", s, p.ref)))))
  }

  predicate AllSlashes(t: string) {
    forall i :: 0 <= i < |t| ==> t[i] in SLASHES
  }

  /** The text without the characters that are trimmed at either end. */
  function Trimmed(s: string): string {
    var lo := TrimBegin(s, 0, |s|);
    s[lo..TrimEnd(s, lo, |s|)]
  }

  /** Parsing loses nothing: the components lie in the trimmed text, in order and disjoint, and
      putting them back together with their separators and the slashes after the scheme gives
      that text. */
  lemma Lossless(s: string) returns (slashes: string)
    ensures var p := StandardURL(s); var lo := TrimBegin(s, 0, |s|);
            && AllWithin(p, lo, TrimEnd(s, lo, |s|)) && InOrder(Components(p))
            && AllSlashes(slashes) && Rejoined(s, p, slashes) == Trimmed(s)
  {
    hide AuthorityParts, PathParts, Text, After, Before, UserText, SchemePart, InOrder;
    var lo := TrimBegin(s, 0, |s|);
    var hi := TrimEnd(s, lo, |s|);
    var start := AfterScheme(s, lo, hi);
    var afterSlashes := SlashesEnd(s, start, hi);
    var endAuth := Next(s, afterSlashes, hi, AUTHORITY_ENDS);
    slashes := s[start..afterSlashes];
    SchemeTiles(s, lo, hi);
    AuthorityTiles(s, afterSlashes, endAuth);
    PathTiles(s, endAuth, hi);
    Join2(s, afterSlashes, endAuth, hi);
    Join2(s, start, afterSlashes, hi);
    Join2(s, lo, start, hi);
    var p := StandardURL(s);
    ChainOrder(p, lo, start, afterSlashes, endAuth, hi);
  }

  lemma ChainOrder(p: Parsed, lo: int, start: int, afterSlashes: int, endAuth: int, hi: int)
    requires 0 <= lo <= start <= afterSlashes <= endAuth <= hi
    requires Within(p.scheme, lo, start)
    requires Within(p.username, afterSlashes, endAuth) && Within(p.password, afterSlashes, endAuth)
    requires Within(p.host, afterSlashes, endAuth) && Within(p.port, afterSlashes, endAuth)
    requires InOrder([p.username, p.password, p.host, p.port])
    requires Within(p.path, endAuth, hi) && Within(p.query, endAuth, hi) && Within(p.ref, endAuth, hi)
    requires InOrder([p.path, p.query, p.ref])
    ensures InOrder(Components(p)) && AllWithin(p, lo, hi)
  {
    var cs, authority, path := Components(p), [p.username, p.password, p.host, p.port], [p.path, p.query, p.ref];
    forall i, j | 0 <= i < j < |cs| && cs[i].IsValid() && cs[j].IsValid() ensures cs[i].End() <= cs[j].begin {
      if 1 <= i && j < 5 {
        assert cs[i] == authority[i - 1] && cs[j] == authority[j - 1];
      } else if 5 <= i {
        assert cs[i] == path[i - 5] && cs[j] == path[j - 5];
      }
    }
  }

  lemma SchemeTiles(s: string, lo: int, hi: int)
    requires 0 <= lo <= hi <= |s|
    ensures Within(SchemePart(s, lo, hi), lo, AfterScheme(s, lo, hi))
    ensures Before(":", s, SchemePart(s, lo, hi)) == s[lo..AfterScheme(s, lo, hi)]
  {
  }

  // ---- Which characters are where --------------------------------------------------------

  /** The component lies in the text and has none of the characters. */
  ghost predicate Free(s: string, c: Component, cs: set<char>) {
    Within(c, 0, |s|) && (c.IsValid() ==> forall k :: c.begin <= k < c.End() ==> s[k] !in cs)
  }

  /** Blanks and control characters, and what is no ASCII, are trimmed at both ends and nothing
      else. */
  lemma TrimmedIs(s: string)
    ensures var lo := TrimBegin(s, 0, |s|); var hi := TrimEnd(s, lo, |s|);
            && (forall k :: 0 <= k < lo || hi <= k < |s| ==> s[k] as int <= 32 || s[k] as int >= 128)
            && (lo < hi ==> 32 < s[lo] as int < 128 && 32 < s[hi - 1] as int < 128)
  {
  }

  lemma UserFree(s: string, lo: int, hi: int, cs: set<char>)
    requires 0 <= lo <= hi <= |s| && forall k :: lo <= k < hi ==> s[k] !in cs
    ensures var u := UserInfo(s, lo, hi); u.0.IsValid() && Free(s, u.0, {':'}) && Free(s, u.0, cs) && Free(s, u.1, cs)
  {
  }

  /** A port holds neither colon nor bracket, and follows no bracket that is still open; without a
      port, each colon of the host has a bracket behind it or one that never closes around it. */
  ghost predicate Bracketed(s: string, host: Component, port: Component) {
    && Free(s, host, {}) && Free(s, port, {':', ']'})
    && (host.IsValid() ==> host.len > 0)
    && (host.IsValid() && port.IsValid() ==> s[host.begin] != '[' || exists k :: host.begin <= k < host.End() && s[k] == ']')
    && (host.IsValid() && !port.IsValid() ==> forall k :: host.begin <= k < host.End() && s[k] == ':' ==>
          || (exists j :: k < j < host.End() && s[j] == ']')
          || (s[host.begin] == '[' && forall j :: host.begin <= j < host.End() ==> s[j] != ']'))
  }

  lemma ServerFree(s: string, lo: int, hi: int, cs: set<char>)
    requires 0 <= lo <= hi <= |s| && forall k :: lo <= k < hi ==> s[k] !in cs
    ensures var r := ServerInfo(s, lo, hi);
            Bracketed(s, r.0, r.1) && Free(s, r.0, cs) && Free(s, r.1, cs) && (lo < hi ==> r.0.IsValid() || r.1.IsValid())
  {
  }

  lemma AuthorityFree(s: string, lo: int, hi: int, cs: set<char>)
    requires 0 <= lo <= hi <= |s| && forall k :: lo <= k < hi ==> s[k] !in cs
    ensures var a := AuthorityParts(s, lo, hi);
            && Free(s, a.username, cs) && Free(s, a.password, cs) && Free(s, a.host, cs) && Free(s, a.port, cs)
            && Free(s, a.username, {':'}) && Free(s, a.host, {'@'}) && Free(s, a.port, {'@'}) && Bracketed(s, a.host, a.port)
            && (lo < hi ==> a.username.IsValid() || a.host.IsValid() || a.port.IsValid())
  {
    hide UserInfo, ServerInfo, Bracketed, Free;
    var at := Prev(s, lo, hi, {'@'});
    var start := if at >= lo then at + 1 else lo;
    if at >= lo { UserFree(s, lo, at, cs); }
    NoneFree(s, cs);
    NoneFree(s, {':'});
    ServerFree(s, start, hi, cs);
    ServerFree(s, start, hi, {'@'});
  }

  lemma NoneFree(s: string, cs: set<char>)
    ensures Free(s, NONE, cs)
  {
  }

  lemma PathFree(s: string, lo: int, hi: int)
    requires 0 <= lo <= hi <= |s|
    ensures var p := PathParts(s, lo, hi);
            && Free(s, p.path, {'?', '#'}) && Free(s, p.query, {'#'}) && (p.path.IsValid() ==> p.path.len > 0 && p.path.begin == lo < hi)
  {
  }

  /** Which characters a component may not have. Together with the order of the components and
      the text they rejoin to, this says where each begins and ends. */
  lemma ComponentsFree(s: string)
    ensures var p := StandardURL(s);
            && (p.scheme.IsValid() <==> ':' in Trimmed(s)) && Free(s, p.scheme, {':'})
            && Free(s, p.username, {'/', '\\', '?', '#'}) && Free(s, p.password, {'/', '\\', '?', '#'})
            && Free(s, p.host, {'/', '\\', '?', '#'}) && Free(s, p.port, {'/', '\\', '?', '#'})
            && Free(s, p.username, {':'}) && Free(s, p.host, {'@'}) && Free(s, p.port, {'@'}) && Bracketed(s, p.host, p.port)
            && Free(s, p.path, {'?', '#'}) && Free(s, p.query, {'#'})
            && (p.path.IsValid() ==>
                  && p.path.len > 0 && (s[p.path.begin] == '/' || s[p.path.begin] == '\\')
                  && (p.username.IsValid() || p.host.IsValid() || p.port.IsValid()))
  {
    hide AuthorityParts, PathParts, Bracketed, Free, TrimBegin, TrimEnd, SlashesEnd, Next, SchemePart, AfterScheme;
    var lo := TrimBegin(s, 0, |s|);
    var hi := TrimEnd(s, lo, |s|);
    var afterSlashes := SlashesEnd(s, AfterScheme(s, lo, hi), hi);
    var endAuth := Next(s, afterSlashes, hi, AUTHORITY_ENDS);
    SchemeFree(s, lo, hi);
    AuthorityFree(s, afterSlashes, endAuth, {'/', '\\', '?', '#'});
    PathFree(s, endAuth, hi);
    var p := StandardURL(s);
    if p.path.IsValid() { PathStart(s, p.path, afterSlashes, endAuth, hi); }
  }

  lemma PathStart(s: string, path: Component, start: int, endAuth: int, hi: int)
    requires 0 <= start <= endAuth < hi <= |s| && path.begin == endAuth && path.len > 0 && Free(s, path, {'?', '#'})
    requires s[endAuth] in AUTHORITY_ENDS && s[start] !in SLASHES
    ensures (s[endAuth] == '/' || s[endAuth] == '\\') && start < endAuth
  {
    assert s[endAuth] !in {'?', '#'};
  }

  lemma SchemeFree(s: string, lo: int, hi: int)
    requires 0 <= lo <= hi <= |s|
    ensures Free(s, SchemePart(s, lo, hi), {':'}) && (SchemePart(s, lo, hi).IsValid() <==> ':' in s[lo..hi])
  {
    var colon := Next(s, lo, hi, {':'});
    if colon < hi {
      assert s[lo..hi][colon - lo] == ':';
    } else {
      forall k | lo <= k < hi ensures s[k] != ':' {
        assert s[k] !in {':'};
      }
    }
  }

  // ---- The scanner -----------------------------------------------------------------------

  method TrimURL(s: string) returns (begin: int, end: int)
    ensures begin == TrimBegin(s, 0, |s|) && end == TrimEnd(s, begin, |s|)
  {
    begin, end := 0, |s|;
    while begin < end && ShouldTrim(s[begin])
      invariant 0 <= begin <= end && TrimBegin(s, begin, |s|) == TrimBegin(s, 0, |s|)
    {
      begin := begin + 1;
    }
    while end > begin && ShouldTrim(s[end - 1])
      invariant begin <= end <= |s| && TrimEnd(s, begin, end) == TrimEnd(s, begin, |s|)
    {
      end := end - 1;
    }
  }

  method CountConsecutiveSlashes(s: string, begin: int, end: int) returns (count: int)
    requires 0 <= begin <= end <= |s|
    ensures begin + count == SlashesEnd(s, begin, end)
  {
    count := 0;
    while begin + count < end && (s[begin + count] == '/' || s[begin + count] == '\\')
      invariant 0 <= count && begin + count <= end
      invariant SlashesEnd(s, begin + count, end) == SlashesEnd(s, begin, end)
    {
      count := count + 1;
    }
  }

  method FindNextAuthorityTerminator(s: string, start: int, end: int) returns (i: int)
    requires 0 <= start <= end <= |s|
    ensures i == Next(s, start, end, AUTHORITY_ENDS)
  {
    i := start;
    while i < end
      invariant start <= i <= end && Next(s, i, end, AUTHORITY_ENDS) == Next(s, start, end, AUTHORITY_ENDS)
    {
      if s[i] in AUTHORITY_ENDS {
        return;
      }
      i := i + 1;
    }
  }

  method ExtractScheme(s: string, end: int) returns (found: bool, scheme: Component)
    requires 0 <= end <= |s|
    ensures var lo := TrimBegin(s, 0, end);
            scheme == SchemePart(s, lo, end) && found == scheme.IsValid()
  {
    var begin := 0;
    while begin < end && ShouldTrim(s[begin])
      invariant 0 <= begin <= end && TrimBegin(s, begin, end) == TrimBegin(s, 0, end)
    {
      begin := begin + 1;
    }
    if begin == end {
      return false, NONE;
    }
    for i := begin to end
      invariant Next(s, i, end, {':'}) == Next(s, begin, end, {':'})
    {
      if s[i] == ':' {
        return true, MakeRange(begin, i);
      }
    }
    return false, NONE;
  }

  method ParseUserInfo(s: string, user: Component) returns (username: Component, password: Component)
    requires user.IsValid() && Within(user, 0, |s|)
    ensures (username, password) == UserInfo(s, user.begin, user.End())
  {
    var colonOffset := 0;
    while colonOffset < user.len && s[user.begin + colonOffset] != ':'
      invariant 0 <= colonOffset <= user.len
      invariant Next(s, user.begin + colonOffset, user.End(), {':'}) == Next(s, user.begin, user.End(), {':'})
    {
      colonOffset := colonOffset + 1;
    }
    if colonOffset < user.len {
      username := Component(user.begin, colonOffset);
      password := MakeRange(user.begin + colonOffset + 1, user.begin + user.len);
    } else {
      username, password := user, NONE;
    }
  }

  method ParseServerInfo(s: string, serverinfo: Component) returns (hostname: Component, port: Component)
    requires serverinfo.IsValid() && Within(serverinfo, 0, |s|)
    ensures (hostname, port) == ServerInfo(s, serverinfo.begin, serverinfo.End())
  {
    if serverinfo.len == 0 {
      return NONE, NONE;
    }
    var lo, hi := serverinfo.begin, serverinfo.End();
    var ipv6Terminator := if s[lo] == '[' then hi else -1;
    var colon := -1;
    for i := lo to hi
      invariant ipv6Terminator
             == if Prev(s, lo, i, {']'}) >= lo then Prev(s, lo, i, {']'}) else if s[lo] == '[' then hi else -1
      invariant colon == if Prev(s, lo, i, {':'}) >= lo then Prev(s, lo, i, {':'}) else -1
    {
      if s[i] == ']' {
        ipv6Terminator := i;
      } else if s[i] == ':' {
        colon := i;
      }
    }
    if colon > ipv6Terminator {
      hostname := MakeRange(lo, colon);
      if hostname.len == 0 {
        hostname := NONE;
      }
      port := MakeRange(colon + 1, hi);
    } else {
      hostname, port := serverinfo, NONE;
    }
  }

  /** The backward search for the @, which stops at the first character. */
  method FindAt(s: string, auth: Component) returns (i: int)
    requires auth.len > 0 && Within(auth, 0, |s|)
    ensures auth.begin <= i < auth.End()
    ensures Prev(s, auth.begin, auth.End(), {'@'}) == if s[i] == '@' then i else auth.begin - 1
  {
    i := auth.begin + auth.len - 1;
    while i > auth.begin && s[i] != '@'
      invariant auth.begin <= i < auth.End()
      invariant Prev(s, auth.begin, i + 1, {'@'}) == Prev(s, auth.begin, auth.End(), {'@'})
    {
      i := i - 1;
    }
    assert s[i] != '@' ==> Prev(s, auth.begin, auth.begin + 1, {'@'}) == Prev(s, auth.begin, auth.begin, {'@'});
  }

  method ParseAuthority(s: string, auth: Component) returns (a: Authority)
    requires auth.IsValid() && Within(auth, 0, |s|)
    ensures a == AuthorityParts(s, auth.begin, auth.End())
  {
    if auth.len == 0 {
      return Authority(NONE, NONE, NONE, NONE);
    }
    hide UserInfo, ServerInfo, Prev;
    var i := FindAt(s, auth);
    var username, password, hostname, port := NONE, NONE, NONE, NONE;
    if s[i] == '@' {
      username, password := ParseUserInfo(s, Component(auth.begin, i - auth.begin));
      hostname, port := ParseServerInfo(s, MakeRange(i + 1, auth.begin + auth.len));
    } else {
      hostname, port := ParseServerInfo(s, auth);
    }
    a := Authority(username, password, hostname, port);
  }

  method ParsePath(s: string, path: Component) returns (p: FullPath)
    requires path.IsValid() ==> Within(path, 0, |s|) && path.len > 0
    ensures p == if path.IsValid() then PathParts(s, path.begin, path.End()) else FullPath(NONE, NONE, NONE)
  {
    if path.len == -1 {
      return FullPath(NONE, NONE, NONE);
    }
    var lo, hi := path.begin, path.begin + path.len;
    var querySeparator, refSeparator := -1, -1;
    ghost var hash := Next(s, lo, hi, {'#'});
    ghost var mark := Next(s, lo, hash, {'?'});
    for i := lo to hi
      invariant refSeparator == if hash < i then hash else -1
      invariant querySeparator == if mark < i && mark < hash then mark else -1
    {
      if s[i] == '?' {
        if refSeparator < 0 && querySeparator < 0 {
          querySeparator := i;
        }
      } else if s[i] == '#' {
        if refSeparator < 0 {
          refSeparator := i;
        }
      }
    }
    var fileEnd, queryEnd, ref, query, filepath := hi, hi, NONE, NONE, NONE;
    if refSeparator >= 0 {
      fileEnd, queryEnd := refSeparator, refSeparator;
      ref := MakeRange(refSeparator + 1, hi);
    }
    if querySeparator >= 0 {
      fileEnd := querySeparator;
      query := MakeRange(querySeparator + 1, queryEnd);
    }
    if fileEnd != lo {
      filepath := MakeRange(lo, fileEnd);
    }
    p := FullPath(filepath, query, ref);
  }

  method ParseStandardURL(s: string) returns (parsed: Parsed)
    ensures parsed == StandardURL(s)
  {
    hide TrimBegin, TrimEnd, SlashesEnd, Next, AfterScheme, SchemePart, AuthorityParts, PathParts;
    var begin, end := TrimURL(s);
    TrimAgain(s, |s|, end);
    var found, scheme := ExtractScheme(s, end);
    SchemeEnds(s, begin, end);
    var afterScheme := if found then scheme.End() + 1 else begin;
    var count := CountConsecutiveSlashes(s, afterScheme, end);
    var afterSlashes := afterScheme + count;
    var endAuth := FindNextAuthorityTerminator(s, afterSlashes, end);
    var a := ParseAuthority(s, Component(afterSlashes, endAuth - afterSlashes));
    var fullPath := if endAuth == end then NONE else Component(endAuth, end - endAuth);
    var p := ParsePath(s, fullPath);
    NoPath(s, end);
    parsed := Parsed(scheme, a.username, a.password, a.host, a.port, p.path, p.query, p.ref);
  }

  lemma SchemeEnds(s: string, lo: int, hi: int)
    requires 0 <= lo <= hi <= |s|
    ensures var c := SchemePart(s, lo, hi); AfterScheme(s, lo, hi) == if c.IsValid() then c.End() + 1 else lo
  {
  }

  lemma NoPath(s: string, i: int)
    requires 0 <= i <= |s|
    ensures PathParts(s, i, i) == FullPath(NONE, NONE, NONE)
  {
  }

  /** The scheme scan skips leading blanks again, to the same place. */
  lemma TrimAgain(s: string, n: int, end: int)
    requires n == |s| && end == TrimEnd(s, TrimBegin(s, 0, n), n)
    ensures TrimBegin(s, 0, end) == TrimBegin(s, 0, n)
  {
    TrimMeets(s, 0, TrimBegin(s, 0, n), end);
  }

  lemma {:induction false} TrimMeets(s: string, lo: int, i: int, hi: int)
    requires 0 <= lo <= i <= hi <= |s| && (i < hi ==> !ShouldTrim(s[i]))
    requires forall k :: lo <= k < i ==> ShouldTrim(s[k])
    ensures TrimBegin(s, lo, hi) == i
    decreases i - lo
  {
    if lo < i {
      TrimMeets(s, lo + 1, i, hi);
    }
  }

  // ---- Ports -----------------------------------------------------------------------------

  const PORT_UNSPECIFIED := -1
  const PORT_INVALID := -2

  /** The number the digits denote, if it is a port. */
  function PortOf(s: string, c: Component): int
    requires Within(c, 0, |s|)
  {
    if !c.IsNonempty() then PORT_UNSPECIFIED
    else if AllDigits(Text(s, c)) && DecimalValue(Text(s, c)) <= 65535 then DecimalValue(Text(s, c))
    else PORT_INVALID
  }

  method ParsePort(s: string, component: Component) returns (port: int)
    requires Within(component, 0, |s|)
    ensures port == PortOf(s, component)
  {
    if !component.IsNonempty() {
      return PORT_UNSPECIFIED;
    }
    var text := Text(s, component);
    var begin := component.len;
    for i := 0 to component.len
      invariant forall k :: 0 <= k < i ==> text[k] == '0'
      invariant begin == component.len
    {
      if s[component.begin + i] != '0' {
        begin := i;
        break;
      }
    }
    assert text == text[..begin] + text[begin..];
    ZerosInFront(text[..begin], text[begin..]);
    port := PortDigits(text[begin..]);
  }

  /** The part after the leading zeros, of which there are at most five digits in a port. */
  method PortDigits(digits: string) returns (port: int)
    requires digits != [] ==> digits[0] != '0'
    ensures port == if AllDigits(digits) && DecimalValue(digits) <= 65535 then DecimalValue(digits) else PORT_INVALID
  {
    if |digits| == 0 {
      return 0;
    }
    if |digits| > 5 {
      if AllDigits(digits) {
        LeadingDigitGrows(digits);
      }
      return PORT_INVALID;
    }
    port := 0;
    for i := 0 to |digits|
      invariant AllDigits(digits[..i]) && port == DecimalValue(digits[..i])
    {
      if !IsDigit(digits[i]) {
        return PORT_INVALID;
      }
      assert digits[..i + 1][..i] == digits[..i];
      port := port * 10 + DigitOf(digits[i]);
    }
    assert digits[..|digits|] == digits;
    if port > 65535 {
      return PORT_INVALID;
    }
  }

  lemma ZerosInFront(zeros: string, digits: string)
    requires forall k :: 0 <= k < |zeros| ==> zeros[k] == '0'
    ensures AllDigits(zeros + digits) <==> AllDigits(digits)
    ensures AllDigits(digits) ==> DecimalValue(zeros + digits) == DecimalValue(digits)
  {
    assert forall k :: 0 <= k < |digits| ==> (zeros + digits)[|zeros| + k] == digits[k];
    if AllDigits(digits) { ZerosAddNothing(zeros, digits); }
  }

  lemma {:induction false} ZerosAddNothing(zeros: string, digits: string)
    requires forall k :: 0 <= k < |zeros| ==> zeros[k] == '0'
    requires AllDigits(digits)
    ensures AllDigits(zeros + digits) && DecimalValue(zeros + digits) == DecimalValue(digits)
    decreases |digits|, |zeros|
  {
    if digits != [] {
      var init := digits[..|digits| - 1];
      assert (zeros + digits)[..|zeros + digits| - 1] == zeros + init;
      ZerosAddNothing(zeros, init);
    } else if zeros != [] {
      assert zeros + digits == zeros;
      assert zeros[..|zeros| - 1] + [] == zeros[..|zeros| - 1];
      ZerosAddNothing(zeros[..|zeros| - 1], []);
    }
  }

  /** More than five digits after the zeros are more than a port can be. */
  lemma {:induction false} LeadingDigitGrows(digits: string)
    requires AllDigits(digits) && digits != [] && digits[0] != '0'
    ensures DecimalValue(digits) >= 1
    ensures |digits| > 5 ==> DecimalValue(digits) >= 100000
  {
    var init := digits[..|digits| - 1];
    if |digits| > 1 {
      LeadingDigitGrows(init);
      if |digits| == 6 { FiveDigits(init); }
    } else {
      assert init == [];
    }
  }

  lemma FiveDigits(d: string)
    requires |d| == 5 && AllDigits(d) && d[0] != '0'
    ensures DecimalValue(d) >= 10000
  {
    assert DecimalValue(d[..1]) >= 1 by { assert d[..1][..0] == []; }
    assert d[..2][..1] == d[..1] && d[..3][..2] == d[..2] && d[..4][..3] == d[..3] && d[..4] == d[..|d| - 1];
    assert DecimalValue(d[..2]) >= 10;
    assert DecimalValue(d[..3]) >= 100;
    assert DecimalValue(d[..4]) >= 1000;
  }

  // ---- The length of a URL ---------------------------------------------------------------

  /** The position after the user, the server and the path so far, given the one before. */
  function AfterAuthority(p: Parsed, cur: int): int {
    var afterUser := if p.password.IsValid() then p.password.End() + 1
                     else if p.username.IsValid() then p.username.End() + 1 else cur;
    if p.port.IsValid() then p.port.End() else if p.host.IsValid() then p.host.End() else afterUser
  }

  /** `Parsed::Length`. */
  function Length(p: Parsed): int {
    if p.ref.IsValid() then p.ref.End()
    else
      var cur := AfterAuthority(p, if p.scheme.IsValid() then p.scheme.End() + 1 else 0);
      if p.query.IsValid() then p.query.End() else if p.path.IsValid() then p.path.End() else cur
  }

  lemma PathEnds(s: string, lo: int, hi: int)
    requires 0 <= lo <= hi <= |s|
    ensures var p := PathParts(s, lo, hi);
            if lo == hi then p == FullPath(NONE, NONE, NONE)
            else if p.ref.IsValid() then p.ref.End() == hi
            else if p.query.IsValid() then p.query.End() == hi
            else p.path.IsValid() && p.path.End() == hi
  {
  }

  lemma ServerEnds(s: string, lo: int, hi: int)
    requires 0 <= lo <= hi <= |s|
    ensures var r := ServerInfo(s, lo, hi);
            if lo == hi then r == (NONE, NONE)
            else if r.1.IsValid() then r.1.End() == hi else r.0.IsValid() && r.0.End() == hi
  {
  }

  lemma UserEnds(s: string, lo: int, hi: int)
    requires 0 <= lo <= hi <= |s|
    ensures var u := UserInfo(s, lo, hi);
            u.0.IsValid() && if u.1.IsValid() then u.1.End() == hi else u.0.End() == hi
  {
  }

  lemma AuthorityEnds(s: string, lo: int, hi: int, p: Parsed, cur: int)
    requires 0 <= lo <= hi <= |s| && AuthorityParts(s, lo, hi) == Authority(p.username, p.password, p.host, p.port)
    ensures AfterAuthority(p, cur) == if lo == hi then cur else hi
    ensures lo == hi <==> !p.username.IsValid() && !p.host.IsValid() && !p.port.IsValid()
  {
    hide UserInfo, ServerInfo;
    var at := Prev(s, lo, hi, {'@'});
    if at >= lo {
      UserEnds(s, lo, at);
      ServerEnds(s, at + 1, hi);
    } else {
      ServerEnds(s, lo, hi);
    }
  }

  predicate HasMore(p: Parsed) {
    p.username.IsValid() || p.host.IsValid() || p.port.IsValid() || p.path.IsValid() || p.query.IsValid() || p.ref.IsValid()
  }

  lemma Pieces(s: string, lo: int, hi: int, afterSlashes: int, endAuth: int)
    requires lo == TrimBegin(s, 0, |s|) && hi == TrimEnd(s, lo, |s|)
    requires afterSlashes == SlashesEnd(s, AfterScheme(s, lo, hi), hi)
    requires endAuth == Next(s, afterSlashes, hi, AUTHORITY_ENDS)
    ensures var p := StandardURL(s);
            && p.scheme == SchemePart(s, lo, hi)
            && AuthorityParts(s, afterSlashes, endAuth) == Authority(p.username, p.password, p.host, p.port)
            && PathParts(s, endAuth, hi) == FullPath(p.path, p.query, p.ref)
  {
    hide TrimBegin, TrimEnd, SlashesEnd, Next, AfterScheme, SchemePart, AuthorityParts, PathParts;
  }

  lemma LengthFromEnds(p: Parsed, start: int, afterSlashes: int, endAuth: int, hi: int)
    requires 0 <= start <= afterSlashes <= endAuth <= hi
    requires p.scheme.IsValid() ==> p.scheme.End() + 1 == start
    requires forall cur :: AfterAuthority(p, cur) == if afterSlashes == endAuth then cur else endAuth
    requires afterSlashes == endAuth <==> !p.username.IsValid() && !p.host.IsValid() && !p.port.IsValid()
    requires if endAuth == hi then !p.path.IsValid() && !p.query.IsValid() && !p.ref.IsValid()
             else if p.ref.IsValid() then p.ref.End() == hi
             else if p.query.IsValid() then p.query.End() == hi
             else p.path.IsValid() && p.path.End() == hi
    ensures Length(p) == hi <==> HasMore(p) || (start == hi && p.scheme.IsValid()) || hi == 0
  {
    hide AfterAuthority;
  }

  /** The reported length is that of the text up to its last kept character, exactly unless
      the text is blank or only slashes follow the scheme or its absence. */
  lemma LengthIsEnd(s: string)
    ensures var lo := TrimBegin(s, 0, |s|); var hi := TrimEnd(s, lo, |s|); var p := StandardURL(s);
            Length(p) == hi <==> HasMore(p) || (AfterScheme(s, lo, hi) == hi && p.scheme.IsValid()) || hi == 0
  {
    var lo := TrimBegin(s, 0, |s|);
    var hi := TrimEnd(s, lo, |s|);
    var start := AfterScheme(s, lo, hi);
    var afterSlashes := SlashesEnd(s, start, hi);
    var endAuth := Next(s, afterSlashes, hi, AUTHORITY_ENDS);
    var p := StandardURL(s);
    hide *;
    Pieces(s, lo, hi, afterSlashes, endAuth);
    SchemeEnds(s, lo, hi);
    forall cur ensures AfterAuthority(p, cur) == if afterSlashes == endAuth then cur else endAuth {
      AuthorityEnds(s, afterSlashes, endAuth, p, cur);
    }
    AuthorityEnds(s, afterSlashes, endAuth, p, 0);
    PathEnds(s, endAuth, hi);
    LengthFromEnds(p, start, afterSlashes, endAuth, hi);
  }
}
