/**
  The session cookies (auth/auth.go): `SetAuthCookies` and the context keys under which the
  middleware passes an identity on. Cookie attributes follow section 5.2 of RFC 6265; `now`
  is the clock in seconds.
*/
module Cookies {
  import opened Http
  import Durations

  const UserKind: string := "user"
  const VisitorKind: string := "visitor"

  /** The request-context keys for the user and the visitor identity. */
  const UserIDContextKey: string := "userID"
  const VisitorIDContextKey: string := "visitorID"

  const AccessPath: string := "/"
  const RefreshPath: string := "/api/refresh"

  function AccessCookieName(kind: string): string {
    kind + "_access_token"
  }

  function RefreshCookieName(kind: string): string {
    kind + "_refresh_token"
  }

  /**
    SetAuthCookies: the access cookie for `kind`, and for users only the refresh cookie. Called
    with empty token strings it is how the handlers clear a session. The expiries are `now` plus
    Go Durations of `accessMinutes` minutes and `refreshDays` days, which wrap past
    `Durations.MaxMinutes` and `Durations.MaxDays`.
  */
  function SetAuthCookies(accessToken: string, refreshToken: string, kind: string,
                          accessMinutes: int, refreshDays: int, now: int): (cs: seq<Cookie>)
    ensures |cs| == if kind == UserKind then 2 else 1
    ensures cs[0].name == AccessCookieName(kind) && cs[0].value == accessToken
    ensures cs[0].path == AccessPath && cs[0].sameSite == SameSiteLax
    ensures cs[0].expires == now + Durations.MinuteOffset(accessMinutes)
    ensures -Durations.MaxMinutes <= accessMinutes <= Durations.MaxMinutes ==>
      cs[0].expires == now + accessMinutes * 60
    ensures kind == UserKind ==>
      cs[1].name == RefreshCookieName(kind) && cs[1].value == refreshToken
      && cs[1].path == RefreshPath && cs[1].sameSite == SameSiteStrict
      && cs[1].expires == now + Durations.DayOffset(refreshDays)
      && (-Durations.MaxDays <= refreshDays <= Durations.MaxDays ==> cs[1].expires == now + refreshDays * 24 * 60 * 60)
    ensures forall i :: 0 <= i < |cs| ==> cs[i].httpOnly && cs[i].secure
  {
    var access := Cookie(AccessCookieName(kind), accessToken, AccessPath,
                         now + Durations.MinuteOffset(accessMinutes), true, true, SameSiteLax);
    if kind == UserKind then
      [access, Cookie(RefreshCookieName(kind), refreshToken, RefreshPath,
                      now + Durations.DayOffset(refreshDays), true, true, SameSiteStrict)]
    else [access]
  }

  /** The cookies that clear a session. */
  function ClearAuthCookies(kind: string, accessMinutes: int, refreshDays: int, now: int): seq<Cookie> {
    SetAuthCookies("", "", kind, accessMinutes, refreshDays, now)
  }

  /**
    Clearing writes the same cookies as a login, by name and path, with empty values. For positive
    durations that fit in an int64 Duration the expiry is still in the future: the browser keeps
    an empty cookie rather than deleting it.
  */
  lemma ClearKeepsNamesAndPaths(accessToken: string, refreshToken: string, kind: string,
                                accessMinutes: int, refreshDays: int, now: int)
    ensures var set_ := SetAuthCookies(accessToken, refreshToken, kind, accessMinutes, refreshDays, now);
      var clear := ClearAuthCookies(kind, accessMinutes, refreshDays, now);
      |clear| == |set_|
      && forall i :: 0 <= i < |clear| ==>
        clear[i] == set_[i].(value := "")
        && (0 < accessMinutes <= Durations.MaxMinutes && 0 < refreshDays <= Durations.MaxDays ==> clear[i].expires > now)
  {
  }

  /**
    Past the int64 bound a positive lifetime wraps into the past: with 200,000,000 minutes the
    access cookie, cleared or not, is already expired when it is set.
  */
  lemma WrappedLifetimeCookieExpired(accessToken: string, refreshToken: string, kind: string,
                                     refreshDays: int, now: int)
    ensures SetAuthCookies(accessToken, refreshToken, kind, 200_000_000, refreshDays, now)[0].expires < now
  {
    Durations.LargeLifetimesWrapNegative();
  }

  /** The user and the visitor keys, and the user and the visitor cookie names, never collide. */
  lemma KeysDistinct()
    ensures UserIDContextKey != VisitorIDContextKey
    ensures AccessCookieName(UserKind) != AccessCookieName(VisitorKind)
    ensures AccessCookieName(UserKind) != RefreshCookieName(UserKind)
  {
    assert UserIDContextKey[0] != VisitorIDContextKey[0];
    assert AccessCookieName(UserKind)[0] != AccessCookieName(VisitorKind)[0];
    assert AccessCookieName(UserKind)[5] != RefreshCookieName(UserKind)[5];
  }

  /** A visitor session gets exactly one cookie, the access cookie. */
  lemma VisitorGetsOneCookie(accessToken: string, refreshToken: string, accessMinutes: int,
                             refreshDays: int, now: int)
    ensures SetAuthCookies(accessToken, refreshToken, VisitorKind, accessMinutes, refreshDays, now)
      == [Cookie("visitor_access_token", accessToken, "/", now + Durations.MinuteOffset(accessMinutes), true, true, SameSiteLax)]
  {
    assert VisitorKind != UserKind by { assert VisitorKind[0] != UserKind[0]; }
    assert AccessCookieName(VisitorKind) == "visitor_access_token";
  }
}
