/**
 * The Credential Refresh Client, `refreshAccessTokenWithRefreshToken`:
 * trades a refresh token for a new access token at the OAuth token
 * endpoint. The HTTP exchange itself is an input: `TokenReply` is what the
 * request came back with.
 */
module RefreshClient {
  import opened Text
  import opened AccountStore

  /** How the token request ended. Empty strings stand for absent fields. */
  datatype TokenReply =
    /** The HTTP client resolved with a response (a 2xx status). */
    | Answered(status: int, accessToken: string, refreshToken: string)
    /** The HTTP client rejected with a response: `error.message`, `error_description` and `error` of its body. */
    | Rejected(errorMessage: string, errorDescription: string, error: string)
    /** No response at all (transport failure), with the client's error message. */
    | Unreachable(message: string)

  datatype RefreshOutcome =
    | Refreshed(tokens: Tokens)
    | RefreshFailed(message: string, status: int)

  const MissingRefreshTokenMessage: string := "该账号未配置 refresh token"
  const NoCredentialMessage: string := "刷新 token 失败，未返回有效凭证"
  const RejectedMessage: string := "刷新 token 失败"
  const NetworkErrorMessage: string := "刷新 token 网络错误"

  /** `a || b` on strings. */
  function OrElse(a: string, b: string): string { if a != [] then a else b }

  /**
   * The request part of refreshAccessTokenWithRefreshToken, for a refresh
   * token that is already trimmed. An answer without status 200 or without
   * an access token is thrown inside the request's try block, so it is
   * caught again and re-thrown as a transport error (status 503) with its
   * message kept.
   */
  function Request(normalized: string, reply: TokenReply): (r: RefreshOutcome)
    // the error of every failure carries a message
    ensures r.RefreshFailed? ==> r.message != []
    // success exactly on a 200 answer that carries an access token, for a non-empty refresh token
    ensures r.Refreshed? <==> (normalized != [] && reply.Answered? && reply.status == 200 && reply.accessToken != [])
    // the new access token, and the rotated refresh token or, if none was issued, the one sent
    ensures r.Refreshed? ==> r.tokens.accessToken == reply.accessToken && r.tokens.accessToken != []
    ensures r.Refreshed? ==> r.tokens.refreshToken == OrElse(reply.refreshToken, normalized) && r.tokens.refreshToken != []
    // an empty refresh token is refused before any request is sent
    ensures normalized == [] ==> r == RefreshFailed(MissingRefreshTokenMessage, 400)
    // an answer that is not 200 or carries no access token: a transport error
    ensures normalized != [] && reply.Answered? && (reply.status != 200 || reply.accessToken == [])
            ==> r == RefreshFailed(NoCredentialMessage, 503)
    // a rejected request: the first message the error body offers, as a bad gateway
    ensures normalized != [] && reply.Rejected?
            ==> r == RefreshFailed(OrElse(reply.errorMessage, OrElse(reply.errorDescription,
                                     OrElse(reply.error, RejectedMessage))), 502)
    // no response: the client's message, as a transport error
    ensures normalized != [] && reply.Unreachable?
            ==> r == RefreshFailed(OrElse(reply.message, NetworkErrorMessage), 503)
  {
    if normalized == [] then RefreshFailed(MissingRefreshTokenMessage, 400)
    else match reply
      case Answered(status, access, rotated) =>
        if status != 200 || access == [] then RefreshFailed(NoCredentialMessage, 503)
        else Refreshed(Tokens(access, OrElse(rotated, normalized)))
      case Rejected(m, d, e) =>
        RefreshFailed(OrElse(m, OrElse(d, OrElse(e, RejectedMessage))), 502)
      case Unreachable(m) =>
        RefreshFailed(OrElse(m, NetworkErrorMessage), 503)
  }

  /** refreshAccessTokenWithRefreshToken: trim the refresh token, then request. */
  function Exchange(refreshToken: string, reply: TokenReply): (r: RefreshOutcome)
    ensures r.RefreshFailed? ==> r.message != []
    // success exactly on a 200 answer that carries an access token, for a non-blank refresh token
    ensures r.Refreshed? <==> (Trim(refreshToken) != [] && reply.Answered? && reply.status == 200
                               && reply.accessToken != [])
    ensures r.Refreshed? ==> r.tokens.accessToken == reply.accessToken && r.tokens.accessToken != []
    ensures r.Refreshed? ==> r.tokens.refreshToken == OrElse(reply.refreshToken, Trim(refreshToken))
                             && r.tokens.refreshToken != []
    // a blank refresh token is refused before any request is sent
    ensures Trim(refreshToken) == [] ==> r == RefreshFailed(MissingRefreshTokenMessage, 400)
    ensures Trim(refreshToken) != [] && reply.Answered? && (reply.status != 200 || reply.accessToken == [])
            ==> r == RefreshFailed(NoCredentialMessage, 503)
    ensures Trim(refreshToken) != [] && reply.Rejected?
            ==> r == RefreshFailed(OrElse(reply.errorMessage, OrElse(reply.errorDescription,
                                     OrElse(reply.error, RejectedMessage))), 502)
    ensures Trim(refreshToken) != [] && reply.Unreachable?
            ==> r == RefreshFailed(OrElse(reply.message, NetworkErrorMessage), 503)
  {
    Request(Trim(refreshToken), reply)
  }

  /** A caller that has trimmed the token already gets what the request alone gives: trimming again changes nothing. */
  lemma ExchangeTrimmed(refreshToken: string, reply: TokenReply)
    ensures Exchange(Trim(refreshToken), reply) == Request(Trim(refreshToken), reply)
  {
    TrimIdempotent(refreshToken);
  }
}
