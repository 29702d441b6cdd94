# goqueue session and admission core, in Dafny

goqueue is a Go HTTP backend for a visitor queue: employees ("users") call visitors to desks,
and visitors take tickets for a purpose. This project models its authentication and admission
logic as pure functions and proves properties about them:

- the access-token codec (`MakeJWT`, `ValidateJWT`, `GetBearerToken`);
- the refresh-token table and token rotation;
- the session cookies, and the browser's `getCookie` and `Authorization` header;
- the identity resolvers that turn a request context into a user or visitor;
- the user and visitor authentication middleware;
- the admission rules of the auth, user, visitor, desk and service-log handlers;
- the `strutils` validators and parsers.

A response is a log of actions (`Http.Log`): status writes, cookies set, redirects, and the
wrapped handler being served. As in Go's `net/http`, the first status written is the one the
client receives (`Http.FirstStatus`), and a cookie set after that is never sent
(`Http.DeliveredCookies`). A handler's reply also records the SQL queries it issued, in order.
A query's outcome is an input of the handler: a row, no rows, or a storage error. The exception
is the refresh-token table, which is modelled concretely as a map from token to row
(`TokenStore`). The clock, random bytes, bcrypt, the email syntax check and the Unicode letter
and digit classes are all parameters. HMAC is not a parameter: it is modelled by a concrete
injective function, `Jwt.Sign`.

Lifetimes follow Go's `time.Duration`, a signed 64-bit count of nanoseconds (`Durations`).
`time.Duration(m) * time.Minute` and `time.Duration(d) * 24 * time.Hour` wrap around modulo
2^64. Up to 153,722,867 minutes or 106,751 days a lifetime is exact. Past those bounds a
positive configured lifetime can land in the past, so the token is expired when it is made and
the cookie is expired when it is set.

The browser side is modelled where it decides what the middleware sees. The browser keeps
cookies by name with their paths, and sends on each request only those whose path matches
(`Middleware.Sent`, following sections 5.1.4 and 5.4 of RFC 6265). `SetAuthCookies` scopes the
refresh cookie to `/api/refresh`, so a request for any other path carries the access cookie
alone. The middleware answers such a request by clearing the session and redirecting to login,
both as written and as intended (`Middleware.SessionOutsideRefreshPath`).

Modules, following the source:

- `Jwt`, `RefreshToken`, `TokenStore`, `Cookies`, `Identity`: `auth/`.
- `Middleware`: `api/api.go`.
- `Handlers`, `AuthHandlers`, `UserHandlers`, `VisitorHandlers`, `DeskHandlers`,
  `ServiceLogHandlers`: `api/handler_*.go`.
- `StrUtils`: `strutils/strutils.go`.
- `Frontend`: `frontend/app.js`.
- Helpers: `Durations` (time.Duration), `Uuid` (google/uuid), `Hex` (encoding/hex), `Decimal` (strconv), `Text` (strings,
  UTF-8 length, JavaScript `split`), `Fields` (the token serialization), `Http`, `Database`,
  `Wrappers`.

## Model

| member | source | states |
|---|---|---|
| Jwt.MakeJWTClaims | auth/jwt.go:21-33 | A made token parses, is HS256 and authentic under its secret, and carries issuer "goqueue", the given subject and user type, and iat = now. Its exp is now plus the minutes as a wrapping int64 Duration, which is now + minutes·60 for minutes within ±153,722,867 |
| Jwt.ParseSerialize | auth/jwt.go:32-47 | Parsing recovers every serialized token: what the signer writes, the parser reads back |
| Jwt.SignInjective | auth/jwt.go:38-44 | A signature determines the algorithm, the claims and the secret it was made with (the HMAC assumption) |
| Jwt.ValidateJWT | auth/jwt.go:35-78 | Success iff the token parses, is HMAC-signed with the secret, and passes the exp, iat, issuer and UUID-subject checks; on success it returns the canonical subject and the user type. Each of malformed, expired, used-before-issued and wrong issuer holds iff the checks before it pass and it fails. Every error returns the nil UUID and user type "" |
| Jwt.ValidateMadeToken | auth/jwt.go:21-78 | Round trip: a token made for a canonical UUID validates with the same secret to the same ID and user type, at any time from its issue up to its exp (the wrapped lifetime) |
| Jwt.WrappedLifetimeBornExpired | auth/jwt.go:22 | A token made with a 200,000,000-minute lifetime already fails as expired when it is made: the Duration wrapped below zero |
| Jwt.WrongSecretFails | auth/jwt.go:38-50 | A token made with one secret fails with a signature error under any other secret |
| Jwt.ExpiredAfterLifetime | auth/jwt.go:58-60 | After its exp (now plus the wrapped lifetime) has passed, a made token fails as expired |
| Jwt.NonUuidSubjectFails | auth/jwt.go:70-74 | A token whose subject is not UUID text (a public ID, say) never validates while it is unexpired |
| Jwt.GetBearerToken | auth/jwt.go:80-87 | An empty header is an error. Otherwise one leading "Bearer " is removed, and a header without that prefix is returned unchanged |
| Jwt.BearerRoundTrip | auth/jwt.go:85 | "Bearer " + token gives back exactly token: one prefix is removed, not more |
| Durations.Wrap | auth/jwt.go:22 | A Go product of durations: the int64 value congruent to the product modulo 2^64, and the product itself when that fits |
| Durations.MinuteOffset | auth/jwt.go:22 | The seconds `time.Duration(m) * time.Minute` adds to a time: m·60 whenever m is within ±153,722,867, and always within the int64 range |
| Durations.DayOffset | auth/auth.go:116 | The seconds `time.Duration(d) * 24 * time.Hour` adds: d·86,400 whenever d is within ±106,751, and always within the int64 range |
| Durations.BoundsAreTight | auth/auth.go:104 | 153,722,867 minutes and 106,751 days are the largest lifetimes that fit; one more does not |
| Durations.WrapThenMultiply | api/api.go:204 | Wrapping an int product before multiplying it by a duration changes nothing, so `2*cfg.AccessTokenDuration` gives the doubled minutes' Duration |
| Durations.LargeLifetimesWrapNegative | api/handler_auth.go:157 | 200,000,000 minutes and 200,000 days both wrap to a negative offset |
| Uuid.CanonicalRoundTrip | auth/jwt.go:71 | Canonical UUID text parses, and prints back to itself |
| Uuid.ParseIsIdempotent | auth/fromcookie.go:41 | Whatever layout was parsed, printing and re-parsing gives the same 16 bytes |
| Hex.Encode | auth/refreshtoken.go:23 | Two lower-case hexadecimal digits per byte |
| RefreshToken.MakeRefreshToken | auth/refreshtoken.go:14-25 | A token exists iff the random source succeeds. It is 64 lower-case hexadecimal characters and decodes to the 32 input bytes |
| RefreshToken.MakeRefreshTokenInjective | auth/refreshtoken.go:14-25 | Distinct keys give distinct tokens |
| RefreshToken.Rotate | auth/refreshtoken.go:27-67 | Revoke first: if the cookie's token is not an active row, rotation fails with 404, and a storage error fails with 500; neither changes the table. A failure after the revoke leaves the old row revoked (no rollback). On success the new row has the old owner and a new key, and the table changes only by the revoke and the insert |
| RefreshToken.RotateFrame | auth/refreshtoken.go:27-67 | Rotation changes only the revoked row and the one new row |
| RefreshToken.RotateKeepsOneActive | auth/refreshtoken.go:36-59 | An owner whose only active token is rotated ends with exactly the new one |
| RefreshToken.RotateLeavesOthers | auth/refreshtoken.go:36-59 | Other owners' active tokens are untouched by a rotation |
| TokenStore.RevokeByToken | auth/refreshtoken.go:36-45 | Succeeds iff the token is an active row. It then revokes exactly that row and returns it; otherwise "no rows" or a storage error, and the table is unchanged |
| TokenStore.Create | auth/refreshtoken.go:55-63 | Inserts an active row for the owner under a fresh key; fails, changing nothing, on a duplicate key or a storage error |
| TokenStore.RevokeByOwner | api/handler_auth.go:321-330 | Revokes exactly the owner's active rows and returns them, an empty set when there are none; only a storage error fails, and then nothing changes. Other rows are unchanged |
| TokenStore.RevokeByOwnerTwice | api/handler_auth.go:321 | Revoking an owner's tokens a second time succeeds with nothing to revoke and changes nothing |
| TokenStore.RevokeAll | api/handler_auth.go:357-366 | Revokes every active row and returns them, an empty set when there are none; only a storage error fails |
| TokenStore.RevokeAllEndsEverySession | api/handler_auth.go:357 | After a successful revoke-all every owner's active tokens were among those returned, and no owner has an active token left |
| TokenStore.ListActive | api/handler_auth.go:84 | The owner's unrevoked rows, possibly empty; the only error is a storage error, never "no rows" |
| TokenStore.ListAfterRevokeByOwner | api/handler_auth.go:84 | After the owner's tokens are revoked, listing them gives the empty set |
| TokenStore.ListAfterCreate | api/handler_auth.go:84 | A created token is listed among its owner's tokens |
| TokenStore.ListAll | api/handler_auth.go:86 | Every row, revoked or not |
| TokenStore.RevocationKeepsRows | api/handler_auth.go:86 | Revoking by token, by owner or all never removes a row: the full listing is the same afterwards |
| TokenStore.RevokeTwice | auth/refreshtoken.go:36-40 | A revoked token cannot be revoked again: the second attempt reports "no rows" |
| TokenStore.RevokeByTokenActive | auth/refreshtoken.go:36 | Revoking one token removes exactly it from its owner's active set |
| TokenStore.CreateActive | auth/refreshtoken.go:59 | Creating a token adds exactly it to its owner's active set and leaves other owners alone |
| Cookies.SetAuthCookies | auth/auth.go:98-123 | The access cookie "kind_access_token": path /, SameSite Lax, expiry now plus the minutes' wrapping Duration (now + minutes·60 within the int64 bound). For users only, also "user_refresh_token": path /api/refresh, SameSite Strict, expiry now plus the days' wrapping Duration (now + days·24h within the bound). All cookies are HttpOnly and Secure |
| Cookies.ClearKeepsNamesAndPaths | auth/auth.go:98-123 | Clearing yields the login cookies with empty values; for positive durations within the int64 bound they still expire in the future |
| Cookies.WrappedLifetimeCookieExpired | auth/auth.go:104 | With a 200,000,000-minute lifetime the access cookie is already expired when it is set |
| Cookies.VisitorGetsOneCookie | auth/auth.go:111-122 | A visitor session gets exactly one cookie, the access cookie |
| Frontend.TrimLeadingSpacesSuffix | frontend/app.js:337 | Removes exactly the run of leading spaces |
| Frontend.FirstMatch | frontend/app.js:335-338 | The first segment starting with "name=" after its spaces are trimmed; no earlier segment matches |
| Frontend.FindCookie | frontend/app.js:335-340 | Returns the text after "name=" in the first matching segment, or null when none matches |
| Frontend.GetCookieRender | frontend/app.js:331-341 | Reading a well-formed Cookie string gives the value of the first pair with that name, or null when there is none (agreement with the reference `Lookup`) |
| Frontend.InfixIsNoMatch | frontend/app.js:338 | A name that occurs other than at a segment's start does not match |
| Frontend.AuthorizationHeader | frontend/app.js:28-40 | The header exists iff useAuth (undefined counts as true) holds and the token is non-empty, and it is "Bearer " followed by exactly the token |
| Frontend.HeaderRoundTrip | frontend/app.js:38-40 | The server's GetBearerToken recovers exactly the client's token; without the header it is refused |
| Text.TrimPrefix | auth/jwt.go:85 | strings.TrimPrefix: one leading prefix removed when present, else unchanged |
| Text.Split | frontend/app.js:334 | split(';') never returns an empty list, and no part contains the separator |
| Decimal.ParseInt | api/handler_visitors.go:180 | strconv.ParseInt base 10: succeeds iff the text is an optionally signed run of digits whose value fits the bit size |
| Decimal.ParseIntAcceptsFormattedInRange | strutils/strutils.go:51 | Decimal text of an in-range integer parses back to it |
| Identity.FromLookup | auth/fromcontext.go:41-52 | A found row is the result and nothing is written; "no rows" is NotFound (404); any other error is 500 |
| Identity.AuthFromContext | auth/fromcontext.go:16-53 | Absent key: 401 and no lookup. Any string, "" included, is looked up as it is, and the result is Ok iff the lookup finds a row. A status is written exactly on failure |
| Identity.UserFromContext | auth/fromcontext.go:55-65 | The user is returned, with nothing written, iff the user key is present and the lookup finds its ID. A missing key is 401 with no lookup, "no rows" is 404, and any other lookup error is 500 |
| Identity.VisitorFromContext | auth/fromcontext.go:67-78 | The same outcomes under the visitor key and the visitor lookup: Ok iff the key is present and found, otherwise 401, 404 or 500 |
| Identity.ReadsOnlyItsKey | auth/fromcontext.go:34 | Contexts that agree on the key resolve alike |
| Identity.UserKeyInvisibleToVisitor | auth/fromcontext.go:55-78 | Adding a user identity does not change visitor resolution |
| Identity.AuthFromContextUuid | auth/fromcookie.go:17-60 | Absent key: 401. Non-UUID text: 400 before any lookup. Otherwise the canonical UUID is looked up (404/500), and a status is written exactly on failure |
| Identity.VariantsAgreeOnCanonical | auth/fromcookie.go:41-45 | On canonical UUID text the two resolver variants agree |
| Identity.AdminFromHeader | auth/fromheader.go:19-46 | Nothing is written iff the Bearer token validates and names an existing admin. A missing header or invalid token is 401, an unknown user 404, a storage error 500, and a non-admin 401 |
| Identity.AdminTokenAdmitted | auth/fromheader.go:19-46 | An admin's fresh access token sent as "Bearer " + token is admitted |
| Http.WriteDecides | jsonutils/jsonutils.go:20-30 | A response that begins by writing a status answers with that status and delivers no cookie, whatever follows |
| Middleware.ToLogin | api/api.go:93-95 | Clearing and redirecting: status 303, the clearing cookies are delivered, the handler is not served |
| Middleware.RotateAndRetry | api/api.go:54-81 | Success: both new cookies, then 303 back to the same path. Failure: the client sees rotation's 404 or 500, and the clearing cookies are not delivered. The handler never runs, and the table is rotation's |
| Middleware.ServeUser | api/api.go:135-179 | After a successful rotation the rotated cookie is set. Then an unknown user is cleared and redirected, a storage error is 500, and an active user is served under the user key. An inactive user is redirected, and still served iff the missing return is kept. Rotation failures end with rotation's own log |
| Middleware.AuthUser | api/api.go:42-181 | The middleware as written, cookie case by cookie case: with no cookies it serves anonymously and then clears and redirects; any non-"user" kind, every invalid token included, gets 400 plus a redirect. A non-empty identity is served only for the subject of a valid user token whose user exists |
| Middleware.AuthUserFixed | api/api.go:42-181 | The intended middleware: no fall-through, an invalid token is rotated, the rotated cookie keeps its name, and an inactive user is not served |
| Middleware.AuthUserFixedServesOnlyActiveUsers | api/api.go:160-179 | As intended, a non-empty identity is served only for an active user holding a valid user token |
| Middleware.ExpiredAccessToken | api/api.go:99-133 | An expired token with a refresh cookie: as written 400 and no rotation; as intended, rotation |
| Middleware.NoCookies | api/api.go:82-96 | No cookies: as written served and then redirected to login; as intended, only served |
| Middleware.InvalidTokenNeverServed | api/api.go:99-133 | With both cookies, an access token that fails validation never reaches the handler, as written or as intended |
| Middleware.PublicIdSessionNeverServed | api/handler_auth.go:141 | An access token minted, as login mints it, for a subject that is not UUID text is never served by either middleware |
| Middleware.SessionOutsideRefreshPath | auth/auth.go:111-121 | With a fresh session's cookies stored, a request for a path outside /api/refresh carries only the access cookie. Both middlewares then clear the session and redirect to login |
| Middleware.SessionOnRefreshPath | auth/auth.go:111-121 | A request for /api/refresh carries both cookies of a fresh session, with their values |
| Middleware.ServedActiveUser | api/api.go:150-179 | An active user after a successful rotation: exactly the rotated cookie, then the handler |
| Middleware.RotatedCookieLost | api/api.go:150-158 | As written, the new token arrives under "refresh_token" while "user_refresh_token" keeps the revoked one |
| Middleware.RevokedRefreshCookieFails | api/api.go:135-147 | A revoked refresh cookie ends in rotation's 404, unserved |
| Middleware.RotatedCookieKept | api/api.go:150-158 | As intended, the browser's "user_refresh_token" becomes the new active token and nothing else changes |
| Middleware.InactiveUser | api/api.go:171-179 | As written, an inactive user is served after the redirect; as intended, not served |
| Middleware.AuthVisitor | api/api.go:183-219 | The handler always runs exactly once, last. No cookie: unbound. A kind other than "visitor" clears the cookie first. An invalid token is served unbound, and a valid token of any kind binds its subject under the visitor key |
| Middleware.UserTokenAsVisitor | api/api.go:201-217 | A valid user token in the visitor cookie is cleared, yet served as a visitor identity |
| Handlers.Answer | jsonutils/jsonutils.go:20-30 | A reply writing one status: the client gets it |
| Handlers.OutcomeStatus | api/handler_servicelogs.go:69-77 | Row → success status; no rows → 404; error → 500 |
| Handlers.Authenticate | api/handler_desks.go:46-49 | Admits iff the context names an existing user, and admits that user. On refusal the client sees the resolver's 401/404/500, not the handler's own write |
| AuthHandlers.GetRefreshTokens | api/handler_auth.go:69-103 | 405 iff not in "dev". In dev: 200 iff the query succeeds with rows; otherwise 404, a failed query included (never 500) |
| AuthHandlers.Credentials | api/handler_auth.go:107-129 | Ok iff the body decodes, the email is found and the password checks, returning that user. Bad body 400, storage error 500, and unknown email or wrong password the same 401 |
| AuthHandlers.Issue | api/handler_auth.go:140-172 | 200 iff the random source, the insert and the fresh key succeed. The table then gains exactly the user's row, expiring now plus the days' wrapping Duration (now + days·24h within the int64 bound), and both cookies are delivered. Otherwise 500 and the table is unchanged |
| AuthHandlers.Login | api/handler_auth.go:105-174 | As written: credential failures give their status. Then a successful list query (every one) gives 303, else 500. The table never changes and the answer is never 200 |
| AuthHandlers.LoginFixed | api/handler_auth.go:130-172 | As intended: 303 only when the user holds an active token, 500 on a list error, otherwise tokens are issued |
| AuthHandlers.LoginFixedStartsSession | api/handler_auth.go:130-172 | As intended, a user without a session gets 200, two cookies, and exactly one active token: the new one |
| AuthHandlers.LoginAsWrittenRefuses | api/handler_auth.go:131-134 | As written, the same user gets 303 and no session |
| AuthHandlers.RefreshWith | api/handler_auth.go:194-229 | A count of active tokens other than one, zero included, revokes them all and gives 401 (500 if the revoke fails). A rejected single token is revoked and gets 401. A missing refresh cookie is 400 before any rotation. Otherwise rotation: 200, 404 or 500, with the table rotation leaves |
| AuthHandlers.RefreshFrom | api/handler_auth.go:176-193 | Unresolved users see the resolver's status; a list error is 500; otherwise RefreshWith over the user's active tokens |
| AuthHandlers.Refresh | api/handler_auth.go:176-229 | As written: an unresolved user sees the resolver's status and the table is unchanged. A 200 means the user holds exactly one active token, that token has already expired, the refresh cookie was sent, and the table is the one rotating that cookie leaves |
| AuthHandlers.RefreshFixed | api/handler_auth.go:176-229 | As intended: the same, except that a 200 means the one active token is still valid |
| AuthHandlers.RefreshNeverSucceedsOnUnexpiredRows | api/handler_auth.go:209-217 | As written, a user all of whose active tokens are unexpired never gets 200 |
| AuthHandlers.RefreshRevokesValidToken | api/handler_auth.go:209-217 | As written, a still-valid sole token is revoked with 401, leaving no active token |
| AuthHandlers.RefreshFixedRotates | api/handler_auth.go:209-229 | As intended, presenting the one valid token gives 200 and the new token is then the only active one |
| AuthHandlers.Logout | api/handler_auth.go:254-293 | Revokes the user's active tokens, none included: 200 with the clearing cookies delivered, or 500 on a storage error with no cookie delivered |
| AuthHandlers.LogoutEndsSession | api/handler_auth.go:264-292 | A 200 logout leaves the user with no active token and every other owner's active tokens as they were |
| AuthHandlers.RevokeUser | api/handler_auth.go:295-338 | Path length 400 first, then resolution. Self-revoke is 400 before the admin check (403). Then the target's tokens are revoked: 200, also when it has none, or 500 |
| AuthHandlers.RevokeUserLeavesOthers | api/handler_auth.go:321 | Every owner other than the target keeps their active tokens |
| AuthHandlers.RevokeAllTokens | api/handler_auth.go:340-374 | Resolution, then non-admin 403, then every active token revoked: 200, also when there are none, or 500 |
| AuthHandlers.RevokeAllTokensEndsEverySession | api/handler_auth.go:340-374 | The table changes, or 200 is answered, only for an identified admin; after a 200 no owner has an active token |
| AuthHandlers.RevokedOwnerNotListed | api/handler_auth.go:80-91 | In dev, listing an owner whose tokens were just revoked finds none and answers 404 |
| StrUtils.FirstInvalid | strutils/strutils.go:22-26 | None iff every rune is a letter or digit; otherwise the index of the first rune that is neither |
| StrUtils.ValidatePassword | strutils/strutils.go:18-28 | A UTF-8 length outside 8..30 is a length error, checked first. Otherwise a character error iff some rune is neither letter nor digit, and nil iff all are |
| StrUtils.InitNullString | strutils/strutils.go:30-37 | Always valid, the string unchanged, "" included |
| StrUtils.QueryParameterToNullString | strutils/strutils.go:76-83 | Valid iff the string is non-empty, with the string preserved |
| StrUtils.NullStringsAgreeUnlessEmpty | strutils/strutils.go:30-83 | The two conversions agree exactly on non-empty strings |
| StrUtils.GetIntegerEnvironmentVariable | strutils/strutils.go:39-59 | A missing key gives NoValueFound, a non-integer gives NotNumeric, and a value ≤ 0 gives Negative; otherwise the positive value Atoi reads |
| StrUtils.EnvironmentRoundTrip | strutils/strutils.go:39-59 | A positive 64-bit setting written in decimal reads back as itself |
| StrUtils.GetPublicIDFromPathValue | strutils/strutils.go:61-74 | The path value is returned iff its byte length equals the configured length |
| StrUtils.PathValueLengthInBytes | strutils/strutils.go:61-74 | For an ASCII value the test is the character count; a value with any non-ASCII rune is refused even at exactly the configured number of characters |
| UserHandlers.ProcessUsersParameters | api/handler_users.go:53-78 | The email is checked before the password, and each failure is reported. Only a request passing both is hashed, and the result is the hash |
| UserHandlers.RejectedBeforeHashing | api/handler_users.go:60-68 | A request rejected for email or password is rejected whatever the hash function does |
| UserHandlers.PostUsers | api/handler_users.go:81-133 | A failed resolution gives its own status with no extra write. A non-admin gets 401, not 403. Then 400 for the body, the parameter check's status (400, or 500 when hashing fails), and 500 without a public ID. CreateUser is issued iff every check passes |
| UserHandlers.PostUsersWritesOnlyForAdmins | api/handler_users.go:81-133 | A write is issued only for an identified admin whose body decodes and passes the parameter check |
| UserHandlers.PutUsers | api/handler_users.go:136-185 | The only update issued is keyed by the accessing user's own ID, and it is issued iff the body and parameters pass; an update finding no row gives 403 |
| UserHandlers.PutUsersWritesOwnRow | api/handler_users.go:136-185 | Every write the handler issues updates the accessing user's own row, with the body's email and the hash of its password |
| UserHandlers.PutUsersByID | api/handler_users.go:188-247 | Resolution, then path length (400) and body (400) before the policy (403). The update is issued iff the policy allows it |
| UserHandlers.AdminNeverBlocked | api/handler_users.go:216-224 | An admin never gets the policy's 403 |
| UserHandlers.NoSelfEscalation | api/handler_users.go:216-224 | A non-admin's issued update is of their own row, keeps them non-admin, and keeps their active flag |
| UserHandlers.GetUsers | api/handler_users.go:249-279 | A non-admin gets 403; an admin gets the list query's 200/404/500 |
| UserHandlers.GetUsersByID | api/handler_users.go:281-324 | Resolution failures give the resolver's status. An inactive user gets 403 before the path check (400), and then the lookup decides |
| UserHandlers.UserReadsNeverWrite | api/handler_users.go:249-324 | The two user GET handlers never issue a write, whoever asks |
| VisitorHandlers.PostVisitors | api/handler_visitors.go:55-106 | The purpose lookup comes first, and an unknown purpose is 404. Then the counter, then CreateVisitor with the name always present (Valid even when empty); creation is issued iff every step succeeds |
| VisitorHandlers.PostVisitorsWritesOnlyForKnownPurpose | api/handler_visitors.go:55-106 | A write is issued only for a decoded body naming a known purpose, and a created visitor's ticket number is the counter's new value |
| VisitorHandlers.PutVisitorsByPublicID | api/handler_visitors.go:108-162 | Path length 400 before resolution, then the body. The update writes the path's public ID |
| VisitorHandlers.BodyPublicIdIgnored | api/handler_visitors.go:137 | The body's public_id has no effect on the reply |
| VisitorHandlers.GetVisitors | api/handler_visitors.go:164-242 | A status that does not parse as a 32-bit integer is 400. Otherwise the query is by purpose and status when a purpose is given, else by status |
| VisitorHandlers.VisitorListNeverWrites | api/handler_visitors.go:164-242 | Listing visitors never issues a write |
| VisitorHandlers.StatusParameterRequired | api/handler_visitors.go:180-184 | Without a status parameter, an identified user always gets 400 and no list query |
| VisitorHandlers.GetVisitorsByPublicID | api/handler_visitors.go:244-286 | As written, the status is the user resolver's whenever there is no user, and the visitor resolver's whenever there is no visitor |
| VisitorHandlers.GetVisitorsByPublicIDFixed | api/handler_visitors.go:244-286 | As intended, the lookup is issued iff a user is identified or the visitor reads themselves. Otherwise a mismatched visitor gets 403, and no identity at all gets 401 |
| VisitorHandlers.VisitorReadNeverWrites | api/handler_visitors.go:244-286 | Reading one visitor never issues a write, as written or as intended |
| VisitorHandlers.VisitorReadingSelfRefused | api/handler_visitors.go:253-265 | A visitor reading their own record: 401 as written, 200 as intended |
| VisitorHandlers.UserReadingVisitorRefused | api/handler_visitors.go:253-265 | A user without a visitor identity: 401 as written, 200 as intended |
| DeskHandlers.PostDesks | api/handler_desks.go:44-88 | Order: identity, then active (403), then admin (403), then body (400). CreateDesks is issued only after all of them, giving 201 or 500 |
| DeskHandlers.PutDesksByPublicID | api/handler_desks.go:91-139 | Identity, then admin (403) with no active check, then path length (400) and body (400), then 200/404/500 |
| DeskHandlers.InactiveAdminEditsDesks | api/handler_desks.go:44-139 | An inactive admin may edit a desk (200) but not create one (403) |
| DeskHandlers.GetDesks | api/handler_desks.go:142-171 | Identity, then active (403), then the list query's 200/404/500 |
| DeskHandlers.GetDesksByPublicID | api/handler_desks.go:174-197 | No authentication: path length (400) with no query, then the lookup |
| DeskHandlers.DeskWritesNeedAdmin | api/handler_desks.go:44-139 | Creating a desk writes only for an identified active admin; editing one only for an identified admin |
| DeskHandlers.DeskReadsNeverWrite | api/handler_desks.go:142-197 | The two desk GET handlers never issue a write |
| ServiceLogHandlers.HandleServiceLogOperation | api/handler_servicelogs.go:52-90 | A body that does not decode is 400 with no query. Otherwise the query runs: a row gives 201 for "POST" and 200 for any other operation, no rows 404, an error 500 |
| ServiceLogHandlers.PostServicelogs | api/handler_servicelogs.go:93-121 | Identity, then active (403). The creation query is issued iff the user is active and the body decodes |
| ServiceLogHandlers.PutServicelogsByID | api/handler_servicelogs.go:124-158 | Identity, then active (403), then path length (400) before the body is read, then the update |
| ServiceLogHandlers.GetServicelogs | api/handler_servicelogs.go:161-162 | The empty handler answers 200 and queries nothing |
| ServiceLogHandlers.GetServicelogsByPublicID | api/handler_servicelogs.go:165-188 | No authentication: path length (400), then the lookup |
| ServiceLogHandlers.ServiceLogWritesNeedActiveUser | api/handler_servicelogs.go:93-158 | Both write handlers write only for an identified active user; the update also needs a path value of the right length |
| ServiceLogHandlers.ServiceLogReadsNeverWrite | api/handler_servicelogs.go:161-188 | The two service-log GET handlers never issue a write |

## Left out

- I/O and wiring: `main.go`, route registration, the server, and environment loading. The
  environment is a map.
- Response bodies and JSON: `jsonutils/jsonutils.go` and `json.go`. Only statuses, cookies,
  redirects and queries are modelled. A body that fails to decode is a `None` input.
- The SQL behind every query. The refresh-token table is a map with the contract the callers rely
  on; the queries themselves are not part of this model. Revoking one token is a one-row query
  and reports "no rows" when the token is not an active row. Revoking by owner and revoking all
  return slices, as the list query does (api/handler_auth.go:84), so they answer an empty set
  rather than "no rows". Other tables are input outcomes.
- TokenStore.Active: a row is active while it is unrevoked; its expiry is not part of the test.
  The source's queries are not available to say otherwise, and the refresh handler tests the
  expiry itself (api/handler_auth.go:209). Were the list query to return only unexpired rows,
  the refresh handler as written could never answer 200
  (`AuthHandlers.RefreshNeverSucceedsOnUnexpiredRows`).
- TokenStore.ListActive: lists the owner's unrevoked rows, expired ones included, for the same
  reason; it does not promise that every listed row is unexpired.
- AuthHandlers.Logout: the not-found branch at api/handler_auth.go:266-269 is never reached,
  because revoking by owner never reports "no rows". Were it reached, its 404 would be written
  before the clearing cookies and they would not be delivered. The same holds for the not-found
  branches at api/handler_auth.go:322-325 and 358-361.
- Cryptography and randomness: HMAC is an injective function `Jwt.Sign`, bcrypt is an input, and
  the random bytes and generated public IDs are inputs.
- Library classifiers: `net/mail` address parsing and `unicode.IsLetter`/`IsDigit` are inputs.
- The token's compact form uses a length-prefixed encoding instead of base64url JSON. Only the
  round trip matters to the callers.
- Jwt.ValidateJWT: the expiry check golang-jwt performs inside `ParseWithClaims` is not modelled.
  Only the checks `ValidateJWT` spells out are. The unexpected-method, bad-signature and bad-UUID
  errors are not characterised separately; together they are "the rest" of the failure iff.
  golang-jwt's own check accepts a token only strictly before its `exp` second. The check at
  auth/jwt.go:58 that the model follows also accepts the `exp` second itself.
- ValidateMadeToken: its window runs up to and including the `exp` second. Go refuses that last
  second inside `ParseWithClaims`, which is the golang-jwt check left out above.
- ClearKeepsNamesAndPaths: promises a future expiry only for lifetimes within the int64 bound
  (153,722,867 minutes, 106,751 days). Beyond it Go's Duration wraps and the cookie can be
  expired when set (`Cookies.WrappedLifetimeCookieExpired`).
- Decimal.ParseInt: Go's syntax and range errors are both `None`; no caller tells them apart.
- TokenStore.Create: the row's own public ID column (`cfg.PublicIDGenerator()`) is not
  modelled. The key is the token.
- RefreshToken.Rotate: the new row's expiry is not passed by the Go caller. It is the
  `defaultExpiry` input.
- Middleware.AuthUser: the branch at api/api.go:108-133 is unreachable, because every validation
  error returns kind "" and the check at line 101 intercepts it. `AuthUserFixed` takes that
  branch.
- Middleware.AuthUser: `auth.ErrRefreshTokenInvalid` is not defined anywhere, so every rotation
  error at api/api.go:137-145 takes the bare return.
- Cookie expiry, `Secure`, `HttpOnly` and `SameSite` do not affect which cookies the browser
  sends; only path scoping does (`Middleware.Sent`). Cookies are kept by name alone, not by name,
  domain and path.
- AuthHandlers.Issue: the access token's subject is the user's public ID, as at
  api/handler_auth.go:141. Public IDs are nanoid strings, and `ValidateJWT` accepts only UUID
  subjects. So the middleware lemmas that serve a user hold only for public IDs that are UUID text;
  `Middleware.PublicIdSessionNeverServed` states the other case.
- Middleware.RotateAndRetry: Go mints the new access token from the rotated row's `UserID`, a UUID
  column (api/api.go:69 and 119, auth/refreshtoken.go:55-58). The model has one owner column, the
  public ID that login stores (api/handler_auth.go:153-158), because the two
  `CreateRefreshTokenParams` shapes in the source disagree. The minted subject is therefore the
  public ID, with the consequence stated for `AuthHandlers.Issue`.
- Jwt.ValidateJWT: `Claims.exp` is always present. A token without `exp` cannot be represented,
  whereas Go dereferences `claims.ExpiresAt` at auth/jwt.go:58 and would panic on it.
- The int32 cast of the visitor status is lossless, because the parse already bounds it to 32
  bits.
- `ApiConfig` has no `PublicIDLength` or `PublicIDGenerator` field, although the handlers use
  them. The length is a parameter, and the generated ID an input.
- Whole files not modelled, because they do not compile or hold no stable behaviour:
  - `api/handler_purposes.go`;
  - `admin/handler_admin.go`;
  - the root `handler_users.go`;
  - `VisitorsByID` in `auth/auth.go`.
- The rest of `frontend/app.js`: DOM handling and the other button handlers.

## Findings

| source | as written | input that shows it | evidently intended | confidence | as-written member | corrected member |
|---|---|---|---|---|---|---|
| api/handler_auth.go:131-138 | Any successful refresh-token list query means "already logged in" (303). The list query returns an empty list, never `sql.ErrNoRows` | Correct credentials for a user with no refresh token: 303, and no tokens are issued | 303 only when the user holds an active token; otherwise tokens are issued | not executed; high | AuthHandlers.Login, AuthHandlers.LoginAsWrittenRefuses | AuthHandlers.LoginFixed, AuthHandlers.LoginFixedStartsSession |
| api/handler_auth.go:209-217 | The single token is rejected when `ExpiresAt.After(now)` | A user whose only token expires tomorrow: the token is revoked and the answer is 401 | Reject the token once its expiry has passed | not executed; high | AuthHandlers.Refresh, AuthHandlers.RefreshRevokesValidToken, AuthHandlers.RefreshNeverSucceedsOnUnexpiredRows | AuthHandlers.RefreshFixed, AuthHandlers.RefreshFixedRotates |
| api/api.go:99-133 | The user-type check comes before the error check, and an invalid token has type "" | An expired user access token with a valid refresh cookie: 400 and a redirect, with no rotation | Rotate the refresh token for an invalid access token (lines 108-133) | not executed; high | Middleware.AuthUser, Middleware.ExpiredAccessToken | Middleware.AuthUserFixed |
| api/api.go:82-86 | No `return` after serving the anonymous request | A request with no cookies: the handler runs, then the cookies are cleared and the client is redirected to login | Serve anonymously, then stop | not executed; high | Middleware.AuthUser, Middleware.NoCookies | Middleware.AuthUserFixed |
| api/api.go:150-151 | The rotated refresh cookie is named "refresh_token" | A valid session after rotation: "user_refresh_token" still holds the revoked token | Name it "user_refresh_token" | not executed; high | Middleware.AuthUser, Middleware.RotatedCookieLost | Middleware.AuthUserFixed, Middleware.RotatedCookieKept |
| api/api.go:171-173 | No `return` after redirecting an inactive user | An inactive user with valid cookies: the handler runs with their identity | Redirect and stop | not executed; high | Middleware.AuthUser, Middleware.InactiveUser | Middleware.AuthUserFixed, Middleware.AuthUserFixedServesOnlyActiveUsers |
| api/handler_visitors.go:253-265 | Both resolvers write their error status before the access rule runs | A visitor reading their own record, with no user identity: 401. A user with no visitor identity: also 401 | Resolvers only report; the rule decides: 200 for a user or for the visitor themselves, 403 for another visitor, 401 for nobody | not executed; high | VisitorHandlers.GetVisitorsByPublicID, VisitorHandlers.VisitorReadingSelfRefused, VisitorHandlers.UserReadingVisitorRefused | VisitorHandlers.GetVisitorsByPublicIDFixed |
