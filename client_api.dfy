/**
 * The client's API helpers: `resolveBackendUrl`, which turns a stored
 * relative asset path into an absolute URL on the backend, and the request
 * interceptor that attaches the stored token.
 */
module ClientApi {
  import opened Wrappers
  import opened Text
  import opened Records
  import opened AuthMiddleware

  /** `new URL(input, base).toString()`; `None` when the constructor throws. Not modelled inside. */
  type UrlResolver = (string, string) -> Option<string>

  /** `/^(https?:)?\/\//i`: an absolute http(s) URL or a protocol-relative one. */
  predicate IsWebUrl(s: string) {
    StartsWithIgnoringCase(s, "http://") || StartsWithIgnoringCase(s, "https://") || StartsWith(s, "//")
  }

  /** `/^(data:|blob:)/i` */
  predicate IsInlineUrl(s: string) {
    StartsWithIgnoringCase(s, "data:") || StartsWithIgnoringCase(s, "blob:")
  }

  /** `resolveBackendUrl(pathOrUrl)` against the backend origin; `None` stands for null or
      undefined, which (like the empty string) is falsy. */
  function ResolveBackendUrl(pathOrUrl: Option<string>, origin: string, resolve: UrlResolver)
    : (r: Option<string>)
    ensures pathOrUrl.None? || pathOrUrl == Some("") ==> r == pathOrUrl
    ensures pathOrUrl.Some? && (IsWebUrl(pathOrUrl.value) || IsInlineUrl(pathOrUrl.value)) ==> r == pathOrUrl
    ensures pathOrUrl.Some? && pathOrUrl.value != "" && !IsWebUrl(pathOrUrl.value) && !IsInlineUrl(pathOrUrl.value)
            ==> r == (if resolve(pathOrUrl.value, origin).Some? then resolve(pathOrUrl.value, origin) else pathOrUrl)
    ensures r.None? <==> pathOrUrl.None?
  {
    match pathOrUrl
    case None => pathOrUrl
    case Some(s) =>
      if s == "" || IsWebUrl(s) || IsInlineUrl(s) then pathOrUrl
      else match resolve(s, origin)
        case None => pathOrUrl
        case Some(url) => Some(url)
  }

  /** Resolving twice gives the same as resolving once when the resolver produces absolute http(s)
      URLs (as `new URL` does against an http origin). */
  lemma ResolveIdempotent(pathOrUrl: Option<string>, origin: string, resolve: UrlResolver)
    requires pathOrUrl.Some? && resolve(pathOrUrl.value, origin).Some? ==>
      var url := resolve(pathOrUrl.value, origin).value;
      StartsWith(url, "http://") || StartsWith(url, "https://")
    ensures var once := ResolveBackendUrl(pathOrUrl, origin, resolve);
      ResolveBackendUrl(once, origin, resolve) == once
  {
    var once := ResolveBackendUrl(pathOrUrl, origin, resolve);
    if once.Some? && once != pathOrUrl {
      var url := once.value;
      if StartsWith(url, "http://") {
        assert forall i :: 0 <= i < 7 ==> url[i] == "http://"[i];
      } else {
        assert forall i :: 0 <= i < 8 ==> url[i] == "https://"[i];
      }
    }
  }

  /** Upper-case schemes pass through as they are. */
  lemma UpperCaseSchemePassesThrough(origin: string, resolve: UrlResolver)
    ensures ResolveBackendUrl(Some("HTTP://a"), origin, resolve) == Some("HTTP://a")
    ensures ResolveBackendUrl(Some("BLOB:a"), origin, resolve) == Some("BLOB:a")
  {
    assert LowerAscii('H') == 'h' && LowerAscii('T') == 't' && LowerAscii('P') == 'p';
    assert LowerAscii('B') == 'b' && LowerAscii('L') == 'l' && LowerAscii('O') == 'o';
    assert LowerAscii(':') == ':' && LowerAscii('/') == '/';
    assert StartsWithIgnoringCase("HTTP://a", "http://");
    assert StartsWithIgnoringCase("BLOB:a", "blob:");
  }

  /** The request headers the interceptor may touch. */
  class RequestConfig {
    var authorization: Option<string>

    constructor (authorization: Option<string>)
      ensures this.authorization == authorization
    {
      this.authorization := authorization;
    }
  }

  /** The request interceptor: `localStorage.getItem('token')` is `stored`; a stored token that is
      not empty sets `Authorization: Bearer <token>`, otherwise the header is left alone. */
  method AttachToken(config: RequestConfig, stored: Option<string>)
    modifies config
    ensures stored.Some? && stored.value != "" ==> config.authorization == Some(BearerPrefix + stored.value)
    ensures stored.None? || stored.value == "" ==> config.authorization == old(config.authorization)
  {
    if stored.Some? && stored.value != "" {
      config.authorization := Some(BearerPrefix + stored.value);
    }
  }

  /** End to end: a request carrying a stored token without spaces is accepted by
      `authMiddleware` as exactly the user the token verifies to. */
  lemma StoredTokenAuthenticates(token: string, verify: Verifier)
    requires token != "" && forall i :: 0 <= i < |token| ==> token[i] != ' '
    ensures Authenticate(Some(BearerPrefix + token), verify)
            == if verify(token).Some? then Accept(verify(token).value) else Reject(InvalidTokenMessage)
  {
    BearerRoundTrip(token);
  }
}
