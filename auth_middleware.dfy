/**
 * The two Express authentication middlewares: `authMiddleware` rejects a
 * request without a valid bearer token, `optionalAuth` lets every request
 * through and only attaches the user id when the token verifies.
 */
module AuthMiddleware {
  import opened Wrappers
  import opened Text
  import opened Records

  const BearerPrefix: string := "Bearer "
  const MissingTokenMessage: string := "未提供认证令牌"
  const InvalidTokenMessage: string := "认证令牌无效或已过期"

  /** `jwt.verify(token, secret).userId`; `None` when verification throws (bad signature,
      expiry). Not modelled inside. */
  type Verifier = string -> Option<Id>

  /** The token in the `Authorization` header: the second space-separated field of a header
      that starts with `Bearer ` (case-sensitive), i.e. the text after the prefix up to the
      next space. An absent or empty header has none. */
  function ParseBearer(header: Option<string>): (r: Option<string>)
    ensures r.Some? <==> header.Some? && StartsWith(header.value, BearerPrefix)
    ensures r.Some? ==>
      var rest := header.value[|BearerPrefix|..];
      && |r.value| <= |rest| && rest[..|r.value|] == r.value
      && (forall i :: 0 <= i < |r.value| ==> r.value[i] != ' ')
      && (|r.value| < |rest| ==> rest[|r.value|] == ' ')
  {
    if header.None? || !StartsWith(header.value, BearerPrefix) then None
    else
      var h := header.value;
      var rest := h[|BearerPrefix|..];
      assert h == "Bearer" + [' '] + rest;
      SplitAfterField("Bearer", ' ', rest);
      Some(Split(h, ' ')[1])
  }

  /** The header the client sends for a stored token is read back as that token whenever the
      token holds no space (a JWT never does). */
  lemma BearerRoundTrip(token: string)
    requires forall i :: 0 <= i < |token| ==> token[i] != ' '
    ensures ParseBearer(Some(BearerPrefix + token)) == Some(token)
  {
    var h := BearerPrefix + token;
    assert h[..|BearerPrefix|] == BearerPrefix;
    assert h[|BearerPrefix|..] == token;
    assert h == "Bearer" + [' '] + token;
    SplitAfterField("Bearer", ' ', token);
    SplitWithoutSeparator(token, ' ');
  }

  /** With a space inside the token only its first word reaches the verifier. */
  lemma TokenWithSpaceIsCut(word: string, tail: string)
    requires forall i :: 0 <= i < |word| ==> word[i] != ' '
    ensures ParseBearer(Some(BearerPrefix + word + " " + tail)) == Some(word)
  {
    var h := BearerPrefix + word + " " + tail;
    assert h[..|BearerPrefix|] == BearerPrefix;
    var rest := h[|BearerPrefix|..];
    assert h == "Bearer" + [' '] + rest;
    assert rest == word + [' '] + tail;
    SplitAfterField("Bearer", ' ', rest);
    SplitAfterField(word, ' ', tail);
  }

  /** What a middleware decides for a request. */
  datatype Decision = Accept(userId: Id) | Reject(message: string)

  /** The decision of `authMiddleware`. */
  function Authenticate(header: Option<string>, verify: Verifier): (d: Decision)
    ensures ParseBearer(header).None? ==> d == Reject(MissingTokenMessage)
    ensures ParseBearer(header).Some? && verify(ParseBearer(header).value).None?
            ==> d == Reject(InvalidTokenMessage)
    ensures d.Accept? <==> ParseBearer(header).Some? && verify(ParseBearer(header).value).Some?
    ensures d.Accept? ==> d.userId == verify(ParseBearer(header).value).value
  {
    match ParseBearer(header)
    case None => Reject(MissingTokenMessage)
    case Some(token) =>
      match verify(token)
      case None => Reject(InvalidTokenMessage)
      case Some(id) => Accept(id)
  }

  /** The request and response objects as far as the middlewares touch them. */
  class Exchange {
    const authorization: Option<string>
    var userId: Option<Id>      // `req.userId`
    var status: Option<int>     // the status of a sent response
    var message: Option<string> // the message of a sent response
    var nextCalls: nat          // how often `next()` ran

    constructor (authorization: Option<string>)
      ensures this.authorization == authorization
      ensures userId == None && status == None && message == None && nextCalls == 0
    {
      this.authorization := authorization;
      userId := None;
      status := None;
      message := None;
      nextCalls := 0;
    }
  }

  const Unauthorized: int := 401

  /** `authMiddleware(req, res, next)` */
  method AuthMiddleware(x: Exchange, verify: Verifier)
    modifies x
    ensures match Authenticate(x.authorization, verify)
      case Accept(id) =>
        x.userId == Some(id) && x.nextCalls == old(x.nextCalls) + 1
        && x.status == old(x.status) && x.message == old(x.message)
      case Reject(m) =>
        x.userId == old(x.userId) && x.nextCalls == old(x.nextCalls)
        && x.status == Some(Unauthorized) && x.message == Some(m)
  {
    var header := x.authorization;
    if header.None? || !StartsWith(header.value, BearerPrefix) {
      x.status, x.message := Some(Unauthorized), Some(MissingTokenMessage);
      return;
    }
    var token := ParseBearer(header).value;
    var decoded := verify(token);
    if decoded.None? {
      x.status, x.message := Some(Unauthorized), Some(InvalidTokenMessage);
      return;
    }
    x.userId := Some(decoded.value);
    x.nextCalls := x.nextCalls + 1;
  }

  /** `optionalAuth(req, res, next)` */
  method OptionalAuth(x: Exchange, verify: Verifier)
    modifies x
    ensures x.nextCalls == old(x.nextCalls) + 1
    ensures x.status == old(x.status) && x.message == old(x.message)
    ensures x.userId == match Authenticate(x.authorization, verify)
      case Accept(id) => Some(id)
      case Reject(_) => old(x.userId)
  {
    var header := x.authorization;
    if header.Some? && StartsWith(header.value, BearerPrefix) {
      var token := ParseBearer(header).value;
      var decoded := verify(token);
      if decoded.Some? {
        x.userId := Some(decoded.value);
      }
    }
    x.nextCalls := x.nextCalls + 1;
  }
}
