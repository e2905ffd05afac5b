/**
 * The bearer-token gate `authenticateToken` (backend/src/middleware/auth.js).
 *
 * The token is the second space-separated word of the Authorization header. Token
 * verification and the user lookup are foreign (a JWT library and the user store):
 * here they are functions passed in, each returning either a value or the name of the
 * error it threw. Every request ends in exactly one outcome: a rejection with a status
 * and message (`success: false`), or a call to `next()` with `req.user` set.
 */
module Auth {
  import opened Wrappers
  import opened Text
  import opened ResourceModel

  /** The user document without its password (`.select("-password")`). */
  datatype User = User(id: ObjectId, username: string, email: string)

  /** `jwt.verify`: the decoded `userId`, or the `name` of the error it threw. */
  datatype VerifyOutcome = Decoded(userId: ObjectId) | VerifyThrew(errorName: string)

  /** `User.findById`: the user, no user (`null`), or the `name` of the error it threw. */
  datatype LookupOutcome = Found(user: User) | NotFound | LookupThrew(errorName: string)

  /** A JSON rejection `{ success: false, message }` with its status, or `next()` with `req.user` set to `user`. */
  datatype AuthOutcome = Reject(status: int, message: string) | Proceed(user: User)

  const MissingTokenMessage: string := "Access token required"
  const InvalidTokenMessage: string := "Invalid token"
  const ExpiredTokenMessage: string := "Token expired"
  const AuthErrorMessage: string := "Authentication error"

  /** `authHeader && authHeader.split(" ")[1]`, where an empty or missing word counts as no token. */
  function ExtractToken(header: Option<string>): Option<string> {
    if header.None? || header.value == [] then None
    else
      var words := Split(header.value, ' ');
      if |words| >= 2 && words[1] != [] then Some(words[1]) else None
  }

  /** The catch block: the response is chosen by the thrown error's name alone. */
  function ErrorResponse(errorName: string): AuthOutcome {
    if errorName == "JsonWebTokenError" then Reject(401, InvalidTokenMessage)
    else if errorName == "TokenExpiredError" then Reject(401, ExpiredTokenMessage)
    else Reject(500, AuthErrorMessage)
  }

  /** The whole decision of `authenticateToken`. */
  function Authenticate(header: Option<string>, verify: string -> VerifyOutcome,
                        lookup: ObjectId -> LookupOutcome): AuthOutcome {
    match ExtractToken(header)
    case None => Reject(401, MissingTokenMessage)
    case Some(token) =>
      match verify(token)
      case VerifyThrew(name) => ErrorResponse(name)
      case Decoded(userId) =>
        match lookup(userId)
        case LookupThrew(name) => ErrorResponse(name)
        case NotFound => Reject(401, InvalidTokenMessage)
        case Found(user) => Proceed(user)
  }

  /** An extracted token is never empty and never contains a space. */
  lemma ExtractedTokenIsOneWord(header: Option<string>)
    requires ExtractToken(header).Some?
    ensures ExtractToken(header).value != [] && ' ' !in ExtractToken(header).value
  {
  }

  /** A missing header gives no token, and a request without a token is answered 401 "Access token required". */
  lemma MissingTokenRejected(header: Option<string>, verify: string -> VerifyOutcome,
                             lookup: ObjectId -> LookupOutcome)
    requires header.None? || ExtractToken(header).None?
    ensures ExtractToken(header).None?
    ensures Authenticate(header, verify, lookup) == Reject(401, "Access token required")
  {
  }

  /** A header without a space has no second word, hence no token. */
  lemma {:induction false} NoSpaceNoToken(header: string)
    requires ' ' !in header
    ensures ExtractToken(Some(header)) == None
  {
    SplitNoSeparator(header, ' ');
  }

  /**
   * The token is the second word, whatever the first one is: the scheme is not checked to
   * be "Bearer", and any further words are ignored.
   */
  lemma {:induction false} TokenIsSecondWord(scheme: string, token: string, more: string)
    requires ' ' !in scheme && ' ' !in token && token != []
    ensures ExtractToken(Some(scheme + " " + token)) == Some(token)
    ensures ExtractToken(Some(scheme + " " + token + " " + more)) == Some(token)
  {
    assert scheme + " " + token == scheme + [' '] + token;
    SplitAfterPiece(scheme, ' ', token);
    SplitNoSeparator(token, ' ');
    assert scheme + " " + token + " " + more == scheme + [' '] + (token + [' '] + more);
    SplitAfterPiece(scheme, ' ', token + [' '] + more);
    SplitAfterPiece(token, ' ', more);
  }

  /** `next()` is reached exactly when a token is present, it verifies, and its user exists; `req.user` is that user. */
  lemma ProceedIffVerifiedUser(header: Option<string>, verify: string -> VerifyOutcome,
                               lookup: ObjectId -> LookupOutcome)
    ensures var outcome := Authenticate(header, verify, lookup);
      && (outcome.Proceed? <==>
            && ExtractToken(header).Some?
            && verify(ExtractToken(header).value).Decoded?
            && lookup(verify(ExtractToken(header).value).userId).Found?)
      && (outcome.Proceed? ==>
            outcome.user == lookup(verify(ExtractToken(header).value).userId).user)
  {
  }

  /** A token that verifies but whose user no longer exists is answered 401 "Invalid token". */
  lemma UnknownUserRejected(header: Option<string>, verify: string -> VerifyOutcome,
                            lookup: ObjectId -> LookupOutcome)
    requires ExtractToken(header).Some?
    requires verify(ExtractToken(header).value).Decoded?
    requires lookup(verify(ExtractToken(header).value).userId) == NotFound
    ensures Authenticate(header, verify, lookup) == Reject(401, "Invalid token")
  {
  }

  /**
   * Thrown errors map by name: JsonWebTokenError to 401 "Invalid token", TokenExpiredError
   * to 401 "Token expired", anything else to 500 "Authentication error" — whether thrown by
   * verification or by the lookup.
   */
  lemma ThrownErrorsMapByName(header: Option<string>, verify: string -> VerifyOutcome,
                              lookup: ObjectId -> LookupOutcome, name: string)
    requires ExtractToken(header).Some?
    requires verify(ExtractToken(header).value) == VerifyThrew(name)
             || (verify(ExtractToken(header).value).Decoded?
                 && lookup(verify(ExtractToken(header).value).userId) == LookupThrew(name))
    ensures Authenticate(header, verify, lookup) ==
      if name == "JsonWebTokenError" then Reject(401, "Invalid token")
      else if name == "TokenExpiredError" then Reject(401, "Token expired")
      else Reject(500, "Authentication error")
  {
  }

  /** Every rejection is a 401, except an unexpected error, which is a 500. */
  lemma RejectionStatuses(header: Option<string>, verify: string -> VerifyOutcome,
                          lookup: ObjectId -> LookupOutcome)
    requires Authenticate(header, verify, lookup).Reject?
    ensures Authenticate(header, verify, lookup).status in {401, 500}
    ensures Authenticate(header, verify, lookup).status == 500 <==>
      Authenticate(header, verify, lookup).message == "Authentication error"
  {
  }

  /** The request object the middleware reads the header from and writes `user` to. */
  class Request {
    const authorization: Option<string>
    var user: Option<User>

    constructor (authorization: Option<string>)
      ensures this.authorization == authorization && user == None
    {
      this.authorization := authorization;
      user := None;
    }
  }

  /** `authenticateToken(req, res, next)`: on success sets `req.user` before `next()`; otherwise leaves it alone. */
  method AuthenticateToken(req: Request, verify: string -> VerifyOutcome, lookup: ObjectId -> LookupOutcome)
    returns (outcome: AuthOutcome)
    modifies req
    ensures outcome == Authenticate(req.authorization, verify, lookup)
    ensures req.user == if outcome.Proceed? then Some(outcome.user) else old(req.user)
  {
    outcome := Authenticate(req.authorization, verify, lookup);
    if outcome.Proceed? {
      req.user := Some(outcome.user);
    }
  }
}
