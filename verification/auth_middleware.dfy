/**
 * The `auth` request gate: reject without a token, reject a token that
 * does not verify, otherwise put the decoded claims in `req.user` and
 * continue.
 */
module AuthMiddleware {
  import opened Optional
  import opened Crypto
  import opened Http

  const NoToken := "No token, authorization denied"
  const InvalidToken := "Token is not valid"

  function Auth(req: Request, lib: Library): (r: Passage)
    // Exactly one of: a response is sent, `next` is called once.
    ensures (r.response.Some? && r.nextCalls == 0) || (r.response.None? && r.nextCalls == 1)
    ensures Falsy(TokenOf(req.cookies)) ==>
              r == Passage(req, Some(Response(401, Message(NoToken), None)), 0)
    ensures !Falsy(TokenOf(req.cookies)) && lib.verify(TokenOf(req.cookies).value).None? ==>
              r == Passage(req, Some(Response(401, Message(InvalidToken), None)), 0)
    // `next` runs exactly when a present token verifies, and then sees its claims.
    ensures r.nextCalls == 1 <==>
              !Falsy(TokenOf(req.cookies)) && lib.verify(TokenOf(req.cookies).value).Some?
    ensures r.nextCalls == 1 ==>
              r.request == req.(user := lib.verify(TokenOf(req.cookies).value))
    ensures r.request.cookies == req.cookies && r.request.body == req.body
  {
    var token := TokenOf(req.cookies);
    if Falsy(token) then Passage(req, Some(Response(401, Message(NoToken), None)), 0)
    else match lib.verify(token.value)
      case None => Passage(req, Some(Response(401, Message(InvalidToken), None)), 0)
      case Some(claims) => Passage(req.(user := Some(claims)), None, 1)
  }
}
