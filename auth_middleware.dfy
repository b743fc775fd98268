/**
 * The bearer-token gate that every protected hours route passes through:
 * take the Authorization header, take its second space-separated word as
 * the token, verify it, and either attach the decoded claims to the request
 * and continue the chain, or answer 403/401 and stop.
 */
module AuthMiddleware {
  import opened Wrappers
  import opened Js
  import opened Crypto
  import opened Http

  const NoTokenMsg := "Token no proporcionado"
  const BadFormatMsg := "Formato de token incorrecto"
  const InvalidTokenMsg := "Token inválido"

  /** What the gate does with a request: continue with these claims as
      `req.user`, or send this reply. */
  datatype Decision = Proceed(user: Claims) | Reject(reply: Reply)

  /** `authHeader.split(' ')[1]`, None where JavaScript yields undefined. */
  function TokenOf(header: string): (t: Option<string>)
    ensures t.None? <==> ' ' !in header
    ensures t.Some? ==> ' ' !in t.value
  {
    var fields := Split(header);
    assert ' ' !in header ==> fields == [header] by {
      if ' ' !in header { SplitWord(header); }
    }
    if |fields| > 1 then Some(fields[1]) else None
  }

  /** The token is the word after the first space, whatever the first word is
      (it is not compared with "Bearer") and whatever follows the next space. */
  lemma TokenIsSecondWord(first: string, token: string, rest: string)
    requires ' ' !in first && ' ' !in token
    requires rest == "" || rest[0] == ' '
    ensures TokenOf(first + " " + token + rest) == Some(token)
  {
    assert first + " " + token + rest == first + " " + (token + rest);
    SplitAfterWord(first, token + rest);
    if rest == "" {
      assert token + rest == token;
      SplitWord(token);
    } else {
      assert token + rest == token + " " + rest[1..];
      SplitAfterWord(token, rest[1..]);
    }
  }

  /** The gate's decision on a header value, in the order the middleware checks. */
  function Gate(header: Option<string>, verify: string -> Option<Claims>): (d: Decision)
    ensures header.None? || header == Some("") ==> d == Reject(Reply(403, Message(NoTokenMsg)))
    ensures header.Some? && header.value != "" && (TokenOf(header.value).None? || TokenOf(header.value) == Some(""))
            ==> d == Reject(Reply(403, Message(BadFormatMsg)))
    ensures header.Some? && TokenOf(header.value).Some? && TokenOf(header.value).value != ""
            ==> d == match verify(TokenOf(header.value).value)
                     case None => Reject(Reply(401, Message(InvalidTokenMsg)))
                     case Some(c) => Proceed(c)
  {
    if header.None? || header.value == "" then
      Reject(Reply(403, Message(NoTokenMsg)))
    else
      var token := TokenOf(header.value);
      if token.None? || token.value == "" then
        Reject(Reply(403, Message(BadFormatMsg)))
      else
        match verify(token.value)
        case None => Reject(Reply(401, Message(InvalidTokenMsg)))
        case Some(c) => Proceed(c)
  }

  /** `verifyToken(req, res, next)`: on every path exactly one of "reply sent" and
      "`next` called" happens; only the verifying path touches `req.user`. */
  method VerifyToken(req: Request, res: Response, next: Next, verify: string -> Option<Claims>)
    modifies req, res, next
    ensures match Gate(req.authorization, verify)
            case Proceed(c) =>
              req.user == Some(c) && next.calls == old(next.calls) + 1 && res.replies == old(res.replies)
            case Reject(r) =>
              req.user == old(req.user) && next.calls == old(next.calls) && res.replies == old(res.replies) + [r]
    ensures (next.calls - old(next.calls)) + (|res.replies| - |old(res.replies)|) == 1
  {
    var authHeader := req.authorization;
    if authHeader.None? || authHeader.value == "" {
      res.Send(Reply(403, Message(NoTokenMsg)));
      return;
    }
    var token := TokenOf(authHeader.value);
    if token.None? || token.value == "" {
      res.Send(Reply(403, Message(BadFormatMsg)));
      return;
    }
    var decoded := verify(token.value);
    if decoded.None? {
      res.Send(Reply(401, Message(InvalidTokenMsg)));
      return;
    }
    req.user := decoded;
    next.Call();
  }

  /** A token the routes issued passes the gate under any one-word scheme and
      yields exactly the claims it was issued for. */
  lemma IssuedTokenPasses(jwt: Jwt, c: Claims, scheme: string)
    requires JwtSound(jwt)
    requires ' ' !in scheme
    ensures Gate(Some(scheme + " " + jwt.sign(c)), jwt.verify) == Proceed(c)
  {
    assert scheme + " " + jwt.sign(c) == scheme + " " + jwt.sign(c) + "";
    TokenIsSecondWord(scheme, jwt.sign(c), "");
  }

  /** The first word of the header is never inspected. */
  lemma SchemeIgnored(w1: string, w2: string, rest: string, verify: string -> Option<Claims>)
    requires ' ' !in w1 && ' ' !in w2
    ensures Gate(Some(w1 + " " + rest), verify) == Gate(Some(w2 + " " + rest), verify)
  {
    SplitAfterWord(w1, rest);
    SplitAfterWord(w2, rest);
  }

  /** A one-word header, or two spaces after the first word, is malformed. */
  lemma MissingSecondWordIsMalformed(w: string, rest: string, verify: string -> Option<Claims>)
    requires ' ' !in w && w != ""
    ensures Gate(Some(w), verify) == Reject(Reply(403, Message(BadFormatMsg)))
    ensures Gate(Some(w + "  " + rest), verify) == Reject(Reply(403, Message(BadFormatMsg)))
  {
    assert w + "  " + rest == w + " " + (" " + rest);
    SplitAfterWord(w, " " + rest);
    assert Split(" " + rest) == [""] + Split(rest) by {
      assert (" " + rest)[1..] == rest;
    }
  }

  /** Verification is consulted only once a non-empty token is present: the
      403 answers do not depend on the verifier. */
  lemma FormatChecksPrecedeVerify(header: Option<string>, v1: string -> Option<Claims>, v2: string -> Option<Claims>)
    requires Gate(header, v1).Reject? && Gate(header, v1).reply.status == 403
    ensures Gate(header, v2) == Gate(header, v1)
  {
  }
}
