/**
 * The bearer-token guard of the connector API: the decision taken by the
 * request dependency that `require_token` builds around the configured
 * token. The HTTP framework that extracts the `Authorization` header is not
 * part of the model; the credentials arrive already split into scheme and
 * value, or absent.
 */
module Auth {
  import opened Wrappers
  import opened Text

  /** The `Authorization` header, split into its scheme and its credential. */
  datatype Credentials = Credentials(scheme: string, credentials: string)

  /** The HTTP error the guard raises. */
  datatype HttpError = HttpError(status: int, detail: string)

  /** A token is configured when it is present and non-empty (Python truthiness). */
  predicate Configured(token: Option<string>) { token.Some? && token.value != "" }

  /**
   * The dependency's decision: with no token configured every request passes;
   * otherwise the request needs credentials whose scheme is "bearer" in any
   * letter case and whose value is the token itself, or it is refused with 401.
   */
  function Authorize(token: Option<string>, creds: Option<Credentials>): (r: Result<bool, HttpError>)
    ensures r.Ok? ==> r.value
    ensures r.Err? ==> r.error == HttpError(401, "Unauthorized")
    ensures !Configured(token) ==> r.Ok?
    ensures Configured(token) && creds.None? ==> r.Err?
    ensures r.Ok? && Configured(token) ==> creds.Some? && creds.value.credentials == token.value
  {
    if !Configured(token) then Ok(true)
    else if creds.None? || Lower(creds.value.scheme) != "bearer" || creds.value.credentials != token.value then
      Err(HttpError(401, "Unauthorized"))
    else Ok(true)
  }

  /** Exactly the requests carrying the configured token under a "bearer" scheme pass a guarded API. */
  lemma AuthorizeExact(token: string, creds: Option<Credentials>)
    requires token != ""
    ensures Authorize(Some(token), creds).Ok?
        <==> creds.Some? && Lower(creds.value.scheme) == "bearer" && creds.value.credentials == token
  {
  }

  /** Only the letter case of the scheme is ignored: "Bearer", "BEARER" and "bearer" are one scheme. */
  lemma SchemeCaseInsensitive(token: Option<string>, s1: string, s2: string, value: string)
    requires Lower(s1) == Lower(s2)
    ensures Authorize(token, Some(Credentials(s1, value))) == Authorize(token, Some(Credentials(s2, value)))
  {
  }
}
