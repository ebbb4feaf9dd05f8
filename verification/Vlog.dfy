/** The wildcard matcher for module names (src/chromium/vlog.cc:115-166). */
module Vlog {

  predicate IsSlash(c: char) {
    c == '/' || c == '\\'
  }

  /** Either slash stands for either slash, and ? for any character. */
  predicate CharMatches(c: char, pattern: char) {
    if IsSlash(pattern) then IsSlash(c) else pattern == '?' || pattern == c
  }

  lemma CharMeans(c: char, pattern: char)
    ensures CharMatches(c, pattern) <==> pattern == '?' || pattern == c || (pattern in "/\\" && c in "/\\")
  {
  }

  /** The wildcard relation: a star stands for any run, the empty one included. */
  ghost predicate Matches(s: string, p: string)
    decreases |p|
  {
    if p == "" then s == ""
    else if p[0] == '*' then exists k :: 0 <= k <= |s| && Matches(s[k..], p[1..])
    else s != "" && CharMatches(s[0], p[0]) && Matches(s[1..], p[1..])
  }

  /** A second star adds nothing to a first. */
  lemma StarsCoalesce(s: string, p: string)
    requires |p| >= 2 && p[0] == '*' && p[1] == '*'
    ensures Matches(s, p) <==> Matches(s, p[1..])
  {
    if Matches(s, p) {
      var k :| 0 <= k <= |s| && Matches(s[k..], p[1..]);
      var l :| 0 <= l <= |s[k..]| && Matches(s[k..][l..], p[1..][1..]);
      assert s[k..][l..] == s[k + l..];
    }
    if Matches(s, p[1..]) {
      assert s[0..] == s;
    }
  }

  lemma StarAlone(s: string)
    ensures Matches(s, "*")
  {
    assert s[|s|..] == "";
    assert Matches(s[|s|..], "*"[1..]);
  }

  /** Behind a star, a pattern that starts with no star needs a non-empty suffix. */
  lemma StarSearch(s: string, p: string, rest: string)
    requires p != "" && p[0] == '*' && rest == p[1..] && rest != "" && rest[0] != '*'
    ensures Matches(s, p) <==> exists k :: 0 <= k < |s| && Matches(s[k..], rest)
  {
    assert !Matches(s[|s|..], rest);
  }

  method MatchVlogPattern(text: string, vlogPattern: string) returns (matched: bool)
    ensures matched <==> Matches(text, vlogPattern)
    decreases |vlogPattern|
  {
    var p, s := vlogPattern, text;
    while p != "" && s != "" && p[0] != '*'
      invariant |p| <= |vlogPattern| && (Matches(s, p) <==> Matches(text, vlogPattern))
      decreases |p|
    {
      if IsSlash(p[0]) {
        if !IsSlash(s[0]) {
          return false;
        }
      } else if p[0] == '?' {
      } else {
        if p[0] != s[0] {
          return false;
        }
      }
      p, s := p[1..], s[1..];
    }
    if p == "" {
      return s == "";
    }
    var star := p;
    assert star == "" || star[0] == '*' || s == "";
    while p != "" && p[0] == '*'
      invariant |p| <= |star| && (|p| == |star| ==> p == star)
      invariant |p| == |star| || (Matches(s, star) <==> Matches(s, "*" + p))
      decreases |p|
    {
      if |p| == |star| {
        assert star == "*" + p[1..];
      } else {
        StarsCoalesce(s, "*" + p);
        assert ("*" + p)[1..] == p == "*" + p[1..];
      }
      p := p[1..];
    }
    if p == "" {
      StarAlone(s);
      assert "*" + p == "*";
      return true;
    }
    if |p| == |star| {
      return false;
    }
    assert ("*" + p)[1..] == p;
    StarSearch(s, "*" + p, p);
    ghost var i := 0;
    ghost var all := s;
    assert all[0..] == all;
    while s != ""
      invariant i <= |all| && s == all[i..]
      invariant forall k :: 0 <= k < i ==> !Matches(all[k..], p)
      decreases |s|
    {
      var here := MatchVlogPattern(s, p);
      if here {
        return true;
      }
      s := s[1..];
      i := i + 1;
    }
    return false;
  }
}
