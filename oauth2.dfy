/**
 * The OAuth2 password-flow example: users with bcrypt-hashed passwords, a
 * `/token` endpoint that issues a signed token naming the user as subject,
 * and a check that decodes such a token and looks its subject up again.
 *
 * bcrypt (`get_password_hash`, `verify_password`) and the JWT codec
 * (`jwt.encode`, `jwt.decode` with signature verification) are parameters;
 * the clock is the parameter `now`, in seconds. The fixed signing key
 * "api_secret_key" and the algorithm "HS256" belong to that codec.
 */
module OAuth2 {
  import opened Wrappers
  import opened Http
  import opened Jwt
  import opened UserLookup

  const ACCESS_TOKEN_EXPIRE_MINUTES := 15

  datatype User = User(username: string, hashedPassword: string)

  /** The field `get_user` matches against. */
  function Name(u: User): string {
    u.username
  }

  /** The module-level `USERS`, with `hash` standing for bcrypt's hashing at start-up. */
  function StoredUsers(hash: string -> string): seq<User> {
    [User("one", hash("secret_one")), User("two", hash("secret_two"))]
  }

  /** `get_user`: the first user whose username contains `username`, else `False`. */
  method GetUser(username: string, usersList: seq<User>) returns (r: Lookup<User>)
    ensures r == FirstMatch(username, usersList, Name)
  {
    r := UserLookup.GetUser(username, usersList, Name);
  }

  /**
   * Matching is containment, not equality: with the stored users, "on" and
   * the empty query both resolve to "one", "tw" to "two", and "three" to
   * `False`.
   */
  lemma ContainmentExamples(hash: string -> string)
    ensures FirstMatch("on", StoredUsers(hash), Name) == Found(User("one", hash("secret_one")))
    ensures FirstMatch("", StoredUsers(hash), Name) == Found(User("one", hash("secret_one")))
    ensures FirstMatch("tw", StoredUsers(hash), Name) == Found(User("two", hash("secret_two")))
    ensures FirstMatch("three", StoredUsers(hash), Name) == NotFound
  {
    assert Contains("on", "one") by {
      assert "one"[..2] == "on";
    }
    EmptyQueryMatchesFirst(StoredUsers(hash), Name);
    assert !Contains("tw", "one") by {
      assert !Contains("tw", "e");
      assert "ne"[..2][0] == 'n' && "ne"[1..] == "e";
      assert !Contains("tw", "ne");
      assert "one"[..2][0] == 'o' && "one"[1..] == "ne";
    }
    assert Contains("tw", "two") by {
      assert "two"[..2] == "tw";
    }
  }

  /**
   * `authenticate_user`: the looked-up user when the password verifies
   * against THAT user's hash, `False` otherwise (unknown name or bad password).
   */
  function AuthenticateUser(username: string, password: string, users: seq<User>,
                            verifyPassword: (string, string) -> bool): (r: Lookup<User>)
    ensures r.Found? <==>
      exists i :: IsFirstMatch(username, users, Name, i) && verifyPassword(password, users[i].hashedPassword)
    ensures r.Found? ==> r == FirstMatch(username, users, Name)
    ensures r.Found? ==>
      r.user in users && Contains(username, r.user.username) && verifyPassword(password, r.user.hashedPassword)
  {
    var user := FirstMatch(username, users, Name);
    if user.NotFound? then NotFound
    else if !verifyPassword(password, user.user.hashedPassword) then NotFound
    else user
  }

  /**
   * The claim set `create_access_token` signs: a copy of `data` with `exp`
   * set (overriding any `exp` already there) to `now` plus the delta, or
   * plus 15 minutes when the delta is absent or zero.
   */
  function ExpiringClaims(data: Claims, expiresDelta: Option<int>, now: int): (toEncode: Claims)
    ensures toEncode.Keys == data.Keys + {EXP}
    ensures forall k :: k in data && k != EXP ==> toEncode[k] == data[k]
    ensures IsTruthy(expiresDelta) ==> toEncode[EXP] == NumericDate(now + expiresDelta.value)
    ensures !IsTruthy(expiresDelta) ==> toEncode[EXP] == NumericDate(now + 15 * SECONDS_PER_MINUTE)
  {
    data[EXP := NumericDate(ExpiryTime(now, expiresDelta, 15 * SECONDS_PER_MINUTE))]
  }

  /**
   * `create_access_token`: works on a copy of the caller's claims (a map is a
   * value, so `data` itself cannot change), sets `exp` and signs the result.
   */
  method CreateAccessToken(data: Claims, expiresDelta: Option<int>, now: int, encode: Claims -> Token)
    returns (encodedJwt: Token)
    ensures encodedJwt == encode(ExpiringClaims(data, expiresDelta, now))
  {
    var toEncode := data;
    var expire: int;
    if IsTruthy(expiresDelta) {
      expire := now + expiresDelta.value;
    } else {
      expire := now + 15 * SECONDS_PER_MINUTE;
    }
    toEncode := toEncode[EXP := NumericDate(expire)];
    encodedJwt := encode(toEncode);
  }

  const CREDENTIALS_EXCEPTION :=
    HttpException(401, "Could not validate credentials (некорректный или недействительный токен)", BEARER_CHALLENGE)

  /** The decoded payload carries a string subject. */
  predicate HasSubject(d: Decoded) {
    d.Payload? && SUB in d.claims && d.claims[SUB].Text?
  }

  /**
   * `get_current_user`, as written. A `JWTError` or a payload without a
   * string `sub` raises 401 (a non-string `sub` is rejected by `jwt.decode`
   * itself with a `JWTError`); a `None` payload makes `payload.get` raise an
   * uncaught `AttributeError`, hence 500. Otherwise the subject is looked up,
   * and the guard `user is None` never fires, because `get_user` signals
   * "not found" with `False`: an unknown subject comes back as `Ok(NotFound)`.
   */
  function GetCurrentUser(token: Token, users: seq<User>, decode: Token -> Decoded): (r: Result<Lookup<User>>)
    ensures r.Ok? <==> HasSubject(decode(token))
    ensures decode(token).NullPayload? ==> r == Err(INTERNAL_SERVER_ERROR)
    ensures !decode(token).NullPayload? && !HasSubject(decode(token)) ==> r == Err(CREDENTIALS_EXCEPTION)
    ensures r.Ok? ==> r.value == FirstMatch(decode(token).claims[SUB].text, users, Name)
  {
    match decode(token)
    case JWTError => Err(CREDENTIALS_EXCEPTION)
    case NullPayload => Err(INTERNAL_SERVER_ERROR)
    case Payload(payload) =>
      if SUB !in payload || !payload[SUB].Text? then Err(CREDENTIALS_EXCEPTION)
      else
        var user := FirstMatch(payload[SUB].text, users, Name);
        Ok(user)
  }

  /**
   * A decodable token whose subject no user's name contains is not rejected:
   * `get_current_user` returns the `False` of the failed lookup.
   */
  lemma UnknownSubjectNotRejected(token: Token, users: seq<User>, decode: Token -> Decoded, subject: string)
    requires decode(token).Payload? && SUB in decode(token).claims
    requires decode(token).claims[SUB] == Text(subject)
    requires forall i :: 0 <= i < |users| ==> !Contains(subject, users[i].username)
    ensures GetCurrentUser(token, users, decode) == Ok(NotFound)
  {
  }

  /** The two stored users' names do not contain "three", so a token for it passes the check as `False`. */
  lemma UnknownStoredSubjectNotRejected(token: Token, hash: string -> string, decode: Token -> Decoded)
    requires decode(token) == Payload(map[SUB := Text("three")])
    ensures GetCurrentUser(token, StoredUsers(hash), decode) == Ok(NotFound)
  {
    UnknownSubjectNotRejected(token, StoredUsers(hash), decode, "three");
  }

  /**
   * `get_current_user` with the guard it evidently means (`if not user`):
   * an unknown subject raises 401 like the other failures.
   */
  function GetCurrentUserRejectingUnknown(token: Token, users: seq<User>, decode: Token -> Decoded): (r: Result<User>)
    ensures r.Ok? <==>
      HasSubject(decode(token)) &&
      exists i :: 0 <= i < |users| && Contains(decode(token).claims[SUB].text, users[i].username)
    ensures r.Ok? ==> r.value in users && Contains(decode(token).claims[SUB].text, r.value.username)
    ensures r.Ok? ==> r.value == FirstMatch(decode(token).claims[SUB].text, users, Name).user
    ensures r.Err? && !decode(token).NullPayload? ==> r.error == CREDENTIALS_EXCEPTION
    ensures decode(token).NullPayload? ==> r == Err(INTERNAL_SERVER_ERROR)
  {
    match GetCurrentUser(token, users, decode)
    case Err(e) => Err(e)
    case Ok(user) =>
      if user.NotFound? then Err(CREDENTIALS_EXCEPTION) else Ok(user.user)
  }

  const LOGIN_FAILED := HttpException(401, "Некорректное имя пользователя или пароль", BEARER_CHALLENGE)

  /**
   * The `/token` endpoint `login_for_access_token`: 401 with the bearer hint
   * when authentication fails; otherwise a bearer token whose `sub` is the
   * STORED username (not necessarily the submitted one) and whose `exp` lies
   * `ACCESS_TOKEN_EXPIRE_MINUTES` ahead.
   */
  function LoginForAccessToken(username: string, password: string, users: seq<User>,
                               verifyPassword: (string, string) -> bool, encode: Claims -> Token,
                               now: int): (r: Result<TokenResponse>)
    ensures r.Err? <==> AuthenticateUser(username, password, users, verifyPassword).NotFound?
    ensures r.Err? ==> r.error == LOGIN_FAILED
    ensures r.Ok? ==> r.value.tokenType == "bearer"
    ensures r.Ok? ==>
      r.value.accessToken == encode(map[
        SUB := Text(AuthenticateUser(username, password, users, verifyPassword).user.username),
        EXP := NumericDate(now + ACCESS_TOKEN_EXPIRE_MINUTES * SECONDS_PER_MINUTE)])
  {
    var user := AuthenticateUser(username, password, users, verifyPassword);
    if user.NotFound? then Err(LOGIN_FAILED)
    else
      var accessTokenExpires := ACCESS_TOKEN_EXPIRE_MINUTES * SECONDS_PER_MINUTE;
      var claims := ExpiringClaims(map[SUB := Text(user.user.username)], Some(accessTokenExpires), now);
      assert claims == map[SUB := Text(user.user.username), EXP := NumericDate(now + accessTokenExpires)];
      Ok(TokenResponse(encode(claims), "bearer"))
  }

  /**
   * The password is verified only against the FIRST user whose name contains
   * the query: "o" reaches "one", so the password of "two" does not log in.
   */
  lemma FirstMatchShadowsLaterUsers(hash: string -> string, verifyPassword: (string, string) -> bool,
                                    encode: Claims -> Token, now: int)
    requires verifyPassword("secret_two", hash("secret_two"))
    requires !verifyPassword("secret_two", hash("secret_one"))
    ensures AuthenticateUser("o", "secret_two", StoredUsers(hash), verifyPassword) == NotFound
    ensures LoginForAccessToken("o", "secret_two", StoredUsers(hash), verifyPassword, encode, now) == Err(LOGIN_FAILED)
  {
    assert Contains("o", "one");
  }

  /** Logging in as "on" with the password of "one" yields a token whose subject is "one". */
  lemma SubjectIsStoredName(hash: string -> string, verifyPassword: (string, string) -> bool,
                            encode: Claims -> Token, now: int)
    requires verifyPassword("secret_one", hash("secret_one"))
    ensures LoginForAccessToken("on", "secret_one", StoredUsers(hash), verifyPassword, encode, now)
      == Ok(TokenResponse(encode(map[SUB := Text("one"), EXP := NumericDate(now + 900)]), "bearer"))
  {
    assert Contains("on", "one") by {
      assert "one"[..2] == "on";
    }
  }

  /**
   * The credentials of the companion script (user "one", password
   * "secret_one") log in, given that bcrypt verifies a password against its
   * own hash.
   */
  lemma CompanionLoginSucceeds(hash: string -> string, verifyPassword: (string, string) -> bool,
                               encode: Claims -> Token, now: int)
    requires verifyPassword("secret_one", hash("secret_one"))
    ensures LoginForAccessToken("one", "secret_one", StoredUsers(hash), verifyPassword, encode, now)
      == Ok(TokenResponse(encode(map[SUB := Text("one"), EXP := NumericDate(now + 900)]), "bearer"))
  {
    ContainsSelf("one");
  }

  /**
   * Round trip: when the codec gives back the claim set `/token` signed
   * (a still-valid `exp` and a string `sub`, which python-jose accepts), the token
   * issued by `/token` makes `get_current_user` return exactly the user who
   * logged in, even though the lookup is by containment.
   */
  lemma IssuedTokenResolvesToUser(username: string, password: string, users: seq<User>,
                                  verifyPassword: (string, string) -> bool,
                                  encode: Claims -> Token, decode: Token -> Decoded, now: int)
    requires LoginForAccessToken(username, password, users, verifyPassword, encode, now).Ok?
    requires var signed := map[
               SUB := Text(AuthenticateUser(username, password, users, verifyPassword).user.username),
               EXP := NumericDate(now + ACCESS_TOKEN_EXPIRE_MINUTES * SECONDS_PER_MINUTE)];
             decode(encode(signed)) == Payload(signed)
    ensures GetCurrentUser(LoginForAccessToken(username, password, users, verifyPassword, encode, now).value.accessToken,
                           users, decode)
      == Ok(AuthenticateUser(username, password, users, verifyPassword))
  {
    var user := AuthenticateUser(username, password, users, verifyPassword);
    var token := LoginForAccessToken(username, password, users, verifyPassword, encode, now).value.accessToken;
    var signed := map[SUB := Text(user.user.username), EXP := NumericDate(now + ACCESS_TOKEN_EXPIRE_MINUTES * SECONDS_PER_MINUTE)];
    assert decode(token) == Payload(signed);
    FoundNameResolvesToSelf(username, users, Name);
  }
}
