/**
 * The Express objects the handlers touch: the request (its Authorization
 * header, its parsed body and the `user` slot the gate fills), the response
 * (every `res.status(..).json(..)` is recorded as a reply) and the `next`
 * continuation (its calls are counted).
 */
module Http {
  import opened Wrappers
  import opened Js
  import opened Crypto

  /** The user object the auth routes send back: no password field. */
  datatype PublicUser = PublicUser(id: nat, nombre: string, email: string, puesto: string)

  /** The JSON bodies the core sends. */
  datatype Body =
    | Message(message: string)
    | MessageWithError(message: string, error: string)
    | Logged(message: string, registroId: nat)
    | Session(message: string, token: string, user: PublicUser)

  /** One `res.status(status).json(body)`; `res.json(body)` alone is status 200. */
  datatype Reply = Reply(status: nat, body: Body)

  class Request {
    /** `req.headers['authorization']`; None when the header is absent. */
    const authorization: Option<string>
    /** `req.body` as parsed JSON. */
    const body: map<string, Value>
    /** `req.user`, set by the authorization gate. */
    var user: Option<Claims>

    constructor (authorization: Option<string>, body: map<string, Value>)
      ensures this.authorization == authorization && this.body == body && user == None
    {
      this.authorization := authorization;
      this.body := body;
      user := None;
    }
  }

  class Response {
    /** Every reply written so far, in order. */
    var replies: seq<Reply>

    constructor ()
      ensures replies == []
    {
      replies := [];
    }

    method Send(r: Reply)
      modifies this
      ensures replies == old(replies) + [r]
    {
      replies := replies + [r];
    }
  }

  class Next {
    /** How many times the middleware chain was continued. */
    var calls: nat

    constructor ()
      ensures calls == 0
    {
      calls := 0;
    }

    method Call()
      modifies this
      ensures calls == old(calls) + 1
    {
      calls := calls + 1;
    }
  }
}
