/** The API-key example: one fixed secret compared with the `Authorization` header. */
module ApiKey {
  import opened Http

  const SECRET_KEY := "api_secret_key"

  const INVALID_API_KEY := HttpException(401, "Невалидный API ключ", map[])

  /** `get_api_key`: the presented key, unchanged, if it equals the secret; 401 otherwise. */
  function GetApiKey(apiKey: string): (r: Result<string>)
    ensures r.Ok? <==> apiKey == SECRET_KEY
    ensures r.Ok? ==> r.value == apiKey
    ensures r.Err? ==> r.error == INVALID_API_KEY
  {
    if apiKey == SECRET_KEY then Ok(apiKey) else Err(INVALID_API_KEY)
  }

  /** Exactly one key is ever accepted. */
  lemma AcceptedKeysAreTheSecret()
    ensures (iset k: string | GetApiKey(k).Ok?) == iset{"api_secret_key"}
  {
  }

  /** The header value the companion script sends is the accepted key. */
  lemma CompanionKeyAccepted()
    ensures GetApiKey("api_secret_key") == Ok("api_secret_key")
  {
  }
}
