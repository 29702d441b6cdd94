/**
  The two pieces of the browser client (frontend/app.js) that speak the server's session
  protocol: `getCookie`, which reads one value out of a `Cookie` string of the form given in
  section 4.2.1 of RFC 6265, and the `Authorization` header that `makeRequest` adds.
*/
module Frontend {
  import opened Wrappers
  import Text
  import Jwt

  /** Leading spaces removed, as the `while (c.charAt(0) === ' ')` loop does. */
  function TrimLeadingSpaces(c: string): string {
    if c != [] && c[0] == ' ' then TrimLeadingSpaces(c[1..]) else c
  }

  /** Trimming removes exactly the run of leading spaces: a suffix remains, not starting with a space. */
  lemma {:induction false} TrimLeadingSpacesSuffix(c: string)
    ensures var r := TrimLeadingSpaces(c);
      (r == [] || r[0] != ' ')
      && |r| <= |c| && c[|c| - |r|..] == r
      && forall i :: 0 <= i < |c| - |r| ==> c[i] == ' '
  {
    if c != [] && c[0] == ' ' {
      TrimLeadingSpacesSuffix(c[1..]);
      var r := TrimLeadingSpaces(c);
      assert c[1..][|c[1..]| - |r|..] == c[|c| - |r|..];
      forall i | 0 <= i < |c| - |r|
        ensures c[i] == ' '
      {
        if i > 0 {
          assert c[i] == c[1..][i - 1];
        }
      }
    }
  }

  /** `c.indexOf(nameEq) === 0` on the segment with its leading spaces removed. */
  predicate Matches(segment: string, nameEq: string) {
    Text.StartsWith(TrimLeadingSpaces(segment), nameEq)
  }

  /** The index of the first matching segment, or the number of segments when none matches. */
  function FirstMatch(segments: seq<string>, nameEq: string): (i: nat)
    ensures i <= |segments|
    ensures i < |segments| ==> Matches(segments[i], nameEq)
    ensures forall j :: 0 <= j < i ==> !Matches(segments[j], nameEq)
  {
    if segments == [] then 0
    else if Matches(segments[0], nameEq) then 0
    else
      var i := FirstMatch(segments[1..], nameEq);
      assert forall j :: 0 <= j < 1 + i ==> !Matches(segments[j], nameEq) by {
        forall j | 0 <= j < 1 + i
          ensures !Matches(segments[j], nameEq)
        {
          if j > 0 {
            assert segments[j] == segments[1..][j - 1];
          }
        }
      }
      1 + i
  }

  /** The loop of getCookie: what follows `nameEq` in the first matching segment. */
  function FindCookie(segments: seq<string>, nameEq: string): (r: Option<string>)
    ensures var i := FirstMatch(segments, nameEq);
      r == if i < |segments| then Some(TrimLeadingSpaces(segments[i])[|nameEq|..]) else None
  {
    if segments == [] then None
    else
      var c := TrimLeadingSpaces(segments[0]);
      if Text.StartsWith(c, nameEq) then Some(c[|nameEq|..])
      else FindCookie(segments[1..], nameEq)
  }

  /** getCookie(name): None stands for `null`. */
  function GetCookie(cookie: string, name: string): (value: Option<string>) {
    FindCookie(Text.Split(cookie, ';'), name + "=")
  }

  /** A name the server can set: no `;`, no `=`, no leading space. */
  predicate CookieName(n: string) {
    ';' !in n && '=' !in n && (n == [] || n[0] != ' ')
  }

  predicate WellFormed(pairs: seq<(string, string)>) {
    forall i :: 0 <= i < |pairs| ==> CookieName(pairs[i].0) && ';' !in pairs[i].1
  }

  /** One `name=value` pair of a Cookie string; every pair after the first follows a space. */
  function Segment(p: (string, string), first: bool): string {
    (if first then "" else " ") + p.0 + "=" + p.1
  }

  function Segments(pairs: seq<(string, string)>): (segs: seq<string>)
    ensures |segs| == |pairs|
    ensures forall i :: 0 <= i < |pairs| ==> segs[i] == Segment(pairs[i], i == 0)
  {
    seq(|pairs|, i requires 0 <= i < |pairs| => Segment(pairs[i], i == 0))
  }

  /** The Cookie string `n1=v1; n2=v2; ...` the browser presents. */
  function Render(pairs: seq<(string, string)>): string {
    if pairs == [] then "" else Text.Join(Segments(pairs), ';')
  }

  /** Reference reading of a cookie list: the value of the first pair with that name. */
  function Lookup(pairs: seq<(string, string)>, name: string): (r: Option<string>)
    ensures r.Some? <==> exists i :: 0 <= i < |pairs| && pairs[i].0 == name
  {
    if pairs == [] then None
    else if pairs[0].0 == name then Some(pairs[0].1)
    else
      var r := Lookup(pairs[1..], name);
      assert forall i :: 1 <= i < |pairs| ==> pairs[i] == pairs[1..][i - 1];
      r
  }

  lemma MatchesOnlyItsName(n: string, v: string, name: string)
    requires CookieName(n) && '=' !in name
    ensures Text.StartsWith(n + "=" + v, name + "=") <==> n == name
  {
    var s := n + "=" + v;
    if Text.StartsWith(s, name + "=") {
      var k := if |n| < |name| then |n| else |name|;
      assert s[k] == (name + "=")[k];
      assert s[|n|] == '=';
      assert (name + "=")[|name|] == '=';
      assert |n| == |name|;
      assert s[..|n|] == n && (name + "=")[..|name|] == name;
    }
    if n == name {
      assert s[..|name + "="|] == name + "=";
    }
  }

  lemma TrimmedSegment(p: (string, string), first: bool)
    requires CookieName(p.0)
    ensures TrimLeadingSpaces(Segment(p, first)) == p.0 + "=" + p.1
  {
    var body := p.0 + "=" + p.1;
    assert body[0] != ' ';
    if !first {
      assert Segment(p, first) == " " + body;
      assert (" " + body)[1..] == body;
    } else {
      assert Segment(p, first) == body;
    }
  }

  lemma {:induction false} FindInSegments(pairs: seq<(string, string)>, segs: seq<string>, name: string)
    requires WellFormed(pairs) && '=' !in name
    requires |segs| == |pairs|
    requires forall i :: 0 <= i < |pairs| ==> TrimLeadingSpaces(segs[i]) == pairs[i].0 + "=" + pairs[i].1
    ensures FindCookie(segs, name + "=") == Lookup(pairs, name)
    decreases |pairs|
  {
    if pairs != [] {
      MatchesOnlyItsName(pairs[0].0, pairs[0].1, name);
      if pairs[0].0 == name {
        assert TrimLeadingSpaces(segs[0])[|name + "="|..] == pairs[0].1;
      } else {
        FindInSegments(pairs[1..], segs[1..], name);
      }
    }
  }

  /**
    getCookie reads back a pair from a well-formed Cookie string: it returns the value of the
    first pair with that name, and null when there is none.
  */
  lemma GetCookieRender(pairs: seq<(string, string)>, name: string)
    requires WellFormed(pairs) && CookieName(name) && name != ""
    ensures GetCookie(Render(pairs), name) == Lookup(pairs, name)
  {
    if pairs == [] {
      EmptyCookieString(name);
    } else {
      var segs := Segments(pairs);
      SegmentsTrimmed(pairs);
      Text.SplitJoin(segs, ';');
      FindInSegments(pairs, segs, name);
    }
  }

  /** An empty Cookie string holds no cookie. */
  lemma EmptyCookieString(name: string)
    requires name != ""
    ensures GetCookie("", name) == None
  {
    assert Text.Split("", ';') == [""];
    assert !Text.StartsWith(TrimLeadingSpaces(""), name + "=");
  }

  /** Each rendered segment is free of `;` and trims to its `name=value` pair. */
  lemma SegmentsTrimmed(pairs: seq<(string, string)>)
    requires WellFormed(pairs)
    ensures forall i :: 0 <= i < |pairs| ==>
      ';' !in Segments(pairs)[i] && TrimLeadingSpaces(Segments(pairs)[i]) == pairs[i].0 + "=" + pairs[i].1
  {
    var segs := Segments(pairs);
    forall i | 0 <= i < |segs|
      ensures ';' !in segs[i] && TrimLeadingSpaces(segs[i]) == pairs[i].0 + "=" + pairs[i].1
    {
      TrimmedSegment(pairs[i], i == 0);
    }
  }

  /**
    A name that occurs after some other leading character does not match: `xa=1` holds no
    cookie `a`, since the match is anchored at the segment's start.
  */
  lemma InfixIsNoMatch(x: char, name: string, v: string)
    requires CookieName(name) && name != ""
    requires x != ' ' && x != ';' && ';' !in v
    ensures GetCookie([x] + name + "=" + v, name) == None
  {
    var s := [x] + name + "=" + v;
    assert ';' !in s by {
      assert forall k :: 0 <= k < |s| ==> s[k] == x || s[k] in name || s[k] == '=' || s[k] in v;
    }
    Text.SplitWhole(s, ';');
    assert TrimLeadingSpaces(s) == s;
    assert s[|name|] == name[|name| - 1] != '=';
    assert s[..|name| + 1][|name|] != (name + "=")[|name|];
  }

  /**
    The Authorization header `makeRequest` adds: only when `useAuth` (undefined counts as true)
    holds and the token is non-empty.
  */
  function AuthorizationHeader(authToken: string, useAuth: Option<bool>): (h: Option<string>)
    ensures h.Some? <==> useAuth != Some(false) && authToken != ""
    ensures h.Some? ==> Text.StartsWith(h.value, "Bearer ") && h.value[7..] == authToken
  {
    var use := match useAuth case None => true case Some(b) => b;
    if use && authToken != "" then
      assert ("Bearer " + authToken)[..7] == "Bearer ";
      Some("Bearer " + authToken)
    else None
  }

  /**
    The server recovers exactly the client's token from the header, and a request without the
    header is refused by GetBearerToken.
  */
  lemma HeaderRoundTrip(authToken: string, useAuth: Option<bool>)
    ensures var h := AuthorizationHeader(authToken, useAuth);
      match h
      case Some(v) => Jwt.GetBearerToken(v) == Wrappers.Ok(authToken)
      case None => Jwt.GetBearerToken("").Err?
  {
    Jwt.BearerRoundTrip(authToken);
  }
}
