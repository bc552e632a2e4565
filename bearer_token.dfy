/**
 * The bearer-token example: plaintext users, a `/token` endpoint that issues
 * a token carrying nothing but an expiry, and a check that only asks whether
 * the presented token decodes (signature, audience and issuer verification
 * are switched off).
 *
 * The JWT codec is a parameter: `decodeUnverified` stands for `jwt.decode`
 * called with those three verifications disabled; the fixed key
 * "api_secret_key" and the algorithm "HS256" belong to that codec. The clock
 * is `now`, in seconds.
 */
module BearerToken {
  import opened Wrappers
  import opened Http
  import opened Jwt
  import opened UserLookup

  const ACCESS_TOKEN_EXPIRE_MINUTES := 15

  datatype User = User(username: string, password: string)

  const USERS: seq<User> := [User("one", "secret_one"), User("two", "secret_two")]

  /** The field `get_user` matches against. */
  function Name(u: User): string {
    u.username
  }

  /** `get_user`: the first user whose username contains `username`, else `False`. */
  method GetUser(username: string, usersList: seq<User>) returns (r: Lookup<User>)
    ensures r == FirstMatch(username, usersList, Name)
  {
    r := UserLookup.GetUser(username, usersList, Name);
  }

  /**
   * The claim set `create_access_token` signs: `exp` alone, `now` plus the
   * delta, or plus `ACCESS_TOKEN_EXPIRE_MINUTES` when the delta is absent or zero.
   */
  function ExpirationClaims(expiresDelta: Option<int>, now: int): (expirationTime: Claims)
    ensures expirationTime.Keys == {EXP}
    ensures IsTruthy(expiresDelta) ==> expirationTime[EXP] == NumericDate(now + expiresDelta.value)
    ensures !IsTruthy(expiresDelta) ==>
      expirationTime[EXP] == NumericDate(now + ACCESS_TOKEN_EXPIRE_MINUTES * SECONDS_PER_MINUTE)
  {
    map[EXP := NumericDate(ExpiryTime(now, expiresDelta, ACCESS_TOKEN_EXPIRE_MINUTES * SECONDS_PER_MINUTE))]
  }

  /** `create_access_token`: sign the expiry-only claim set. */
  function CreateAccessToken(expiresDelta: Option<int>, now: int, encode: Claims -> Token): Token {
    encode(ExpirationClaims(expiresDelta, now))
  }

  const CREDENTIALS_EXCEPTION :=
    HttpException(401, "Could not validate credentials (некорректный или недействительный токен)", BEARER_CHALLENGE)

  /**
   * `check_access_token`: 401 when decoding raises `JWTError` or yields
   * `None`; otherwise the decoded payload, unchanged. Nothing else about the
   * payload (a subject, a known user) is required.
   */
  function CheckAccessToken(token: Token, decodeUnverified: Token -> Decoded): (r: Result<Claims>)
    ensures r.Ok? <==> decodeUnverified(token).Payload?
    ensures r.Ok? ==> r.value == decodeUnverified(token).claims
    ensures r.Err? ==> r.error == CREDENTIALS_EXCEPTION
  {
    match decodeUnverified(token)
    case JWTError => Err(CREDENTIALS_EXCEPTION)
    case NullPayload => Err(CREDENTIALS_EXCEPTION)
    case Payload(payload) => Ok(payload)
  }

  const USER_ABSENT := HttpException(400, "Данный пользователь отсутствует в базе", map[])

  /** The 400 answer naming the stored username whose password did not match. */
  function WrongPassword(username: string): HttpException {
    HttpException(400, "Некорректный пароль для пользователя: " + username, map[])
  }

  /**
   * The `/token` endpoint `action_create_access_token`: 400 "user absent"
   * when no name contains the query, whatever the password; 400 naming the
   * first matched user when the password differs from that user's; otherwise
   * a bearer token for the expiry-only claim set.
   */
  function ActionCreateAccessToken(username: string, password: string, users: seq<User>,
                                   encode: Claims -> Token, now: int): (r: Result<TokenResponse>)
    ensures FirstMatch(username, users, Name).NotFound? ==> r == Err(USER_ABSENT)
    ensures FirstMatch(username, users, Name).Found? && password != FirstMatch(username, users, Name).user.password ==>
      r == Err(WrongPassword(FirstMatch(username, users, Name).user.username))
    ensures r.Ok? <==> exists i :: IsFirstMatch(username, users, Name, i) && password == users[i].password
    ensures r.Ok? ==>
      r.value == TokenResponse(encode(map[EXP := NumericDate(now + ACCESS_TOKEN_EXPIRE_MINUTES * SECONDS_PER_MINUTE)]),
                               "bearer")
  {
    var user := FirstMatch(username, users, Name);
    if user.NotFound? then Err(USER_ABSENT)
    else if password != user.user.password then Err(WrongPassword(user.user.username))
    else
      var accessTokenExpires := ACCESS_TOKEN_EXPIRE_MINUTES * SECONDS_PER_MINUTE;
      var accessToken := CreateAccessToken(Some(accessTokenExpires), now, encode);
      Ok(TokenResponse(accessToken, "bearer"))
  }

  /**
   * The token names no user: any two successful logins at the same instant
   * get the same token, whoever logged in.
   */
  lemma TokenCarriesNoUser(username1: string, password1: string, username2: string, password2: string,
                           users: seq<User>, encode: Claims -> Token, now: int)
    requires ActionCreateAccessToken(username1, password1, users, encode, now).Ok?
    requires ActionCreateAccessToken(username2, password2, users, encode, now).Ok?
    ensures ActionCreateAccessToken(username1, password1, users, encode, now)
         == ActionCreateAccessToken(username2, password2, users, encode, now)
  {
  }

  /**
   * The password is compared with the FIRST user whose name contains the
   * query only: "o" reaches "one", so the password of "two" is refused with
   * a message naming "one".
   */
  lemma FirstMatchShadowsLaterUsers(encode: Claims -> Token, now: int)
    ensures ActionCreateAccessToken("o", "secret_two", USERS, encode, now) == Err(WrongPassword("one"))
  {
    assert Contains("o", "one");
  }

  /** A name contained in no stored username is refused before any password is looked at. */
  lemma UnknownUserRefused(password: string, encode: Claims -> Token, now: int)
    ensures ActionCreateAccessToken("three", password, USERS, encode, now) == Err(USER_ABSENT)
  {
  }

  /**
   * The companion script's flow: "one" / "secret_one" gets a token, and
   * presenting it passes the check, which yields the expiry-only claims,
   * provided the decoder gives back that one claim set (its `exp` still lies
   * in the future).
   */
  lemma CompanionFlowSucceeds(encode: Claims -> Token, decodeUnverified: Token -> Decoded, now: int)
    requires decodeUnverified(encode(map[EXP := NumericDate(now + 900)])) == Payload(map[EXP := NumericDate(now + 900)])
    ensures ActionCreateAccessToken("one", "secret_one", USERS, encode, now).Ok?
    ensures CheckAccessToken(ActionCreateAccessToken("one", "secret_one", USERS, encode, now).value.accessToken,
                             decodeUnverified)
      == Ok(map[EXP := NumericDate(now + 900)])
  {
    ContainsSelf("one");
    assert IsFirstMatch("one", USERS, Name, 0);
  }

  /**
   * Acceptance depends on decodability alone: a token that decodes to any
   * payload at all, even one without `exp`, passes the check.
   */
  lemma AnyDecodablePayloadAccepted(token: Token, decodeUnverified: Token -> Decoded, payload: Claims)
    requires decodeUnverified(token) == Payload(payload)
    ensures CheckAccessToken(token, decodeUnverified) == Ok(payload)
  {
  }
}
