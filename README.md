# Authentication decisions of the FastAPI examples, modelled in Dafny

This project models the credential lookup and the authentication decisions in
three small FastAPI example services. It proves properties of that model.

- **API key** (`authenticate/api_key/main.py`): the `Authorization` header must
  equal one fixed secret.
- **Bearer token** (`authenticate/bearer_token/main.py`): users with plaintext
  passwords. `/token` issues a token that carries only an expiry. The check
  decodes the token with signature, audience and issuer verification switched
  off.
- **OAuth2 password flow** (`authenticate/oauth2/main.py`): users with bcrypt
  hashes. `/token` issues a token whose subject (`sub`, section 4.1.2 of
  RFC 7519) is the username. The check decodes the token and looks the
  subject up again.

Both user lookups (`get_user`) are a first-match scan. The test is *substring
containment* (`query in username`), not equality. Module `UserLookup` defines
this once, as the spec function `FirstMatch` and the loop `GetUser`. The two
example modules instantiate it for their own `User` record.

The foreign parts are parameters of the operations that use them:
- bcrypt's `verify_password` and `get_password_hash`;
- `jwt.encode` and `jwt.decode`, so a token is an opaque string;
- the clock, as `now` in whole seconds;
- a `timedelta`, as a whole number of seconds.

A decode has one of three outcomes: a payload, `None`, or a raised `JWTError`.
A handler's outcome is `Ok(value)` or `Err(HttpException(status, detail,
headers))`. `get_user`'s `User | False` is `Found(user) | NotFound`. The
handlers take the user list as a parameter. `OAuth2.StoredUsers(hash)` and
`BearerToken.USERS` are the module-level `USERS` lists, used in the concrete
lemmas.

Files: `wrappers.dfy` (Option), `http.dfy` (errors, results, the token
response), `jwt.dfy` (claim sets, decode outcomes, expiry arithmetic),
`lookup.dfy`, `oauth2.dfy`, `bearer_token.dfy`, `api_key.dfy`.

Two behaviours of the code are worth knowing before reading the table:
- The guard `user is None` (authenticate/oauth2/main.py:136) never fires,
  because `get_user` returns `False` when nothing matches (see Findings).
- The issued `sub` is the stored username of the first substring match, not
  necessarily the submitted one (`OAuth2.SubjectIsStoredName`).

## Model

| member | source | states |
|---|---|---|
| `UserLookup.ContainsIff` | authenticate/oauth2/main.py:55 | the `in` test on strings holds exactly when the query occurs at some index of the username (so the empty query occurs in every name) |
| `UserLookup.FirstMatch` | authenticate/oauth2/main.py:54-57 | the result is `False` exactly when no username contains the query; otherwise it is the user at the first index whose name contains the query, with no earlier name containing it |
| `UserLookup.GetUser` | authenticate/oauth2/main.py:54-57 | the early-return loop returns exactly the first substring match in list order, or `False` |
| `UserLookup.EmptyQueryMatchesFirst` | authenticate/oauth2/main.py:55 | the empty query resolves to the first user of any non-empty list |
| `UserLookup.FoundNameResolvesToSelf` | authenticate/oauth2/main.py:54-57 | looking up the stored name of the user a query resolved to gives back that same user |
| `OAuth2.GetUser` | authenticate/oauth2/main.py:46-57 | `get_user` over hashed-password users is the first-substring-match search |
| `OAuth2.ContainmentExamples` | authenticate/oauth2/main.py:42-43 | with the stored users, `"on"` and `""` both resolve to `one`, `"tw"` resolves to `two` and `"three"` resolves to `False` |
| `OAuth2.AuthenticateUser` | authenticate/oauth2/main.py:79-84 | the result is a user exactly when the first substring match exists and the password verifies against that user's hash; the result is then that looked-up user, otherwise `False` |
| `OAuth2.FirstMatchShadowsLaterUsers` | authenticate/oauth2/main.py:79-84 | query `"o"` with the password of `two` fails authentication and `/token`, because only the first match `one` is verified |
| `OAuth2.ExpiringClaims` | authenticate/oauth2/main.py:95-100 | the claim set keeps every key and value of `data` except `exp`, and sets `exp` to now+delta, or to now+15 minutes when the delta is absent or zero |
| `OAuth2.CreateAccessToken` | authenticate/oauth2/main.py:87-102 | the copy-then-update method signs exactly that claim set |
| `OAuth2.GetCurrentUser` | authenticate/oauth2/main.py:127-138 | a `JWTError`, or a payload without a string `sub`, gives 401 with the bearer hint; a `None` payload gives 500; otherwise the result is the lookup of the subject, success included when the lookup gives `False` |
| `OAuth2.UnknownSubjectNotRejected` | authenticate/oauth2/main.py:135-138 | a decodable token whose subject no username contains yields `Ok(False)` and not an error |
| `OAuth2.UnknownStoredSubjectNotRejected` | authenticate/oauth2/main.py:135-137 | a token with subject `"three"` passes the check against the stored users and yields `False` |
| `OAuth2.GetCurrentUserRejectingUnknown` | authenticate/oauth2/main.py:135-137 | with the guard corrected, success happens exactly when the subject is present and some username contains it; the user returned is the first stored user whose name contains the subject; a `None` payload still gives 500 and every other failure 401 |
| `OAuth2.LoginForAccessToken` | authenticate/oauth2/main.py:146-157 | failure happens exactly when authentication fails, and gives 401 with `WWW-Authenticate: Bearer`; success gives type `bearer` and signs exactly `{sub: stored username, exp: now+15 min}` |
| `OAuth2.SubjectIsStoredName` | authenticate/oauth2/main.py:154-156 | logging in as `"on"` with `one`'s password signs subject `"one"`, not the submitted name |
| `OAuth2.CompanionLoginSucceeds` | authenticate/oauth2/test.py:9-13 | the script's `one`/`secret_one` logs in, provided bcrypt verifies a password against its own hash |
| `OAuth2.IssuedTokenResolvesToUser` | authenticate/oauth2/main.py:128-138 | when the decoder gives back the one claim set `/token` signed, the token from `/token` makes `get_current_user` return exactly the authenticated user |
| `BearerToken.GetUser` | authenticate/bearer_token/main.py:32-43 | `get_user` over the plaintext users is the same first-substring-match search |
| `BearerToken.ExpirationClaims` | authenticate/bearer_token/main.py:53-57 | the claim set has the single key `exp`, set to now+delta or to now+`ACCESS_TOKEN_EXPIRE_MINUTES` when the delta is absent or zero |
| `BearerToken.CheckAccessToken` | authenticate/bearer_token/main.py:78-85 | success happens exactly when the unverified decode yields a payload, which is returned unchanged; `JWTError` or `None` give 401 with the bearer hint |
| `BearerToken.AnyDecodablePayloadAccepted` | authenticate/bearer_token/main.py:79-83 | any payload the decoder yields, even one without `exp`, is accepted |
| `BearerToken.ActionCreateAccessToken` | authenticate/bearer_token/main.py:96-106 | with no match the answer is 400 "user absent", whatever the password; a mismatch against the first match's password is 400 naming that user; success happens exactly when the password equals the first match's; success is type `bearer` with the token signed over `{exp: now+15 min}` |
| `BearerToken.TokenCarriesNoUser` | authenticate/bearer_token/main.py:104-106 | two successful logins at the same instant get identical responses, whoever logged in |
| `BearerToken.FirstMatchShadowsLaterUsers` | authenticate/bearer_token/main.py:97-101 | query `"o"` with `two`'s password is refused with the message naming `one` |
| `BearerToken.UnknownUserRefused` | authenticate/bearer_token/main.py:97-99 | an unmatched name gets 400 "user absent" for every password |
| `BearerToken.CompanionFlowSucceeds` | authenticate/bearer_token/test.py:5-12 | `one`/`secret_one` gets a token; when the decoder gives back the signed `{exp: now+15 min}`, that token passes the check with those claims |
| `ApiKey.GetApiKey` | authenticate/api_key/main.py:17-27 | the key is accepted exactly when it equals `SECRET_KEY`, and is then returned unchanged; any other key gives 401 "Невалидный API ключ" |
| `ApiKey.AcceptedKeysAreTheSecret` | authenticate/api_key/main.py:14-27 | the set of accepted keys is exactly `{"api_secret_key"}` |
| `ApiKey.CompanionKeyAccepted` | authenticate/api_key/test.py:5 | the header value the companion script sends is accepted |

## Findings

| source | as written | input that shows it | evidently intended | confidence | as-written member | corrected member |
|---|---|---|---|---|---|---|
| authenticate/oauth2/main.py:135-137 | the guard tests `user is None`, but `get_user` reports "not found" as `False`, so the guard never fires | a decodable token with subject `"three"` against the stored users `one`, `two` | an unknown subject raises the 401 credentials error | high (not executed) | `OAuth2.UnknownStoredSubjectNotRejected` | `OAuth2.GetCurrentUserRejectingUnknown` |

`OAuth2.GetCurrentUser` keeps the behaviour as written, and the lemmas
`UnknownSubjectNotRejected` and `IssuedTokenResolvesToUser` are stated about
it. The corrected check is built on it and differs only in rejecting
`False`; no other handler (`LoginForAccessToken`) depends on which version is
chosen.

## Left out

- FastAPI plumbing is not modelled, because it is framework behaviour. This covers route registration, the `/test` and `/` handlers, `RedirectResponse`, `uvicorn.run` and async execution.
- The security-scheme dependencies `OAuth2PasswordBearer`, `HTTPBearer` and `APIKeyHeader` are not modelled, including their answers when a header is missing. The checks start from the extracted token or key.
- bcrypt hashing and verification (`passlib`) are abstract parameters. bcrypt's random salt is folded into the abstract `hash` that builds `StoredUsers`.
- The JWT wire format, HS256 signing (section 3.2 of RFC 7518) and the fixed `SECRET_KEY`/`ALGORITHM` are not modelled; they belong to the abstract codec and are named only in the module comments.
- OAuth2.ExpiringClaims: `datetime`'s bounded range (years 1 to 9999) is not modelled, so the `OverflowError` that `utcnow() + expires_delta` raises outside it is not an outcome here; every integer `now` and delta gives a claim set. The handlers only pass 15 minutes.
- OAuth2.CreateAccessToken: `datetime`'s bounded range (years 1 to 9999) is not modelled, so the `OverflowError` that `utcnow() + expires_delta` raises outside it is not an outcome here; every integer `now` and delta gives a claim set. The handlers only pass 15 minutes.
- BearerToken.ExpirationClaims: `datetime`'s bounded range (years 1 to 9999) is not modelled, so the `OverflowError` that `utcnow() + expires_delta` raises outside it is not an outcome here; every integer `now` and delta gives a claim set. The handlers only pass 15 minutes.
- Claim validation inside python-jose's `jwt.decode` is not modelled: expiry checking and the "sub must be a string" check belong to the abstract decoder. A non-string `sub` therefore counts as a rejection (401).
- `OAuth2.GetCurrentUser` maps a `None` payload to a 500 answer, because `payload.get` would raise an uncaught `AttributeError`. python-jose never returns `None`, so this branch and the bearer check's `None` branch are defensive only.
- `datetime.utcnow()` is the parameter `now` in whole seconds. Sub-second precision of `datetime` and `timedelta` is not modelled.
- Pydantic validation of the request, response and `TokenData` models is not modelled.
- `BearerToken.CreateAccessToken` has no contract of its own. The claim set it signs is stated by `BearerToken.ExpirationClaims`, and the token it returns is stated by `BearerToken.ActionCreateAccessToken`.
- `local_swagger/main.py` is not modelled. It consists of static-file mounting, documentation HTML and a cache check around framework state (`custom_openapi`).
- The three `test.py` scripts are network clients. They appear only as the credentials used in the companion lemmas.
