/** The authentication endpoints (UserAuth): each maps the outcome of a
    collaborator (user service, token validator, authority extraction) to an
    HTTP status and a response body. */
module UserAuth {
  import opened Wrappers
  import TokenValidate

  const OK: int := 200
  const CREATED: int := 201
  const BAD_REQUEST: int := 400
  const UNAUTHORIZED: int := 401
  const INTERNAL_SERVER_ERROR: int := 500

  /** An HTTP response: its status code and its body. */
  datatype Response<B> = Response(status: int, body: B)

  /** Body of the register endpoint. */
  datatype RegisterMessage = RegisterMessage(message: string, accessToken: Option<string>)

  /** Informational text carried in a login response. */
  datatype InformationMessage = InformationMessage(message: string)

  /** Body of the login endpoint: the two token slots and the information. */
  datatype JwtResponseMessage =
    JwtResponseMessage(accessToken: Option<string>, refreshToken: Option<string>, information: Option<InformationMessage>)

  /** Body of the validate and authority endpoints. */
  datatype TokenValidationResponse = TokenValidationResponse(message: string)

  /** The login form; the username field also accepts an email address. */
  datatype LoginForm = LoginForm(username: Option<string>, password: string)

  /** The user service's login pipeline: a response body or the message of
      the error it signals. */
  type LoginService = LoginForm -> Result<JwtResponseMessage, string>

  const RegisterErrorPrefix: string := "Error occurred while creating the account: "
  const EmptyUsernameMessage: string := "Username or Email cannot be null or empty"

  /** register: the service's message with 201 on success; on any error, 500
      and the error text behind a fixed prefix. */
  function Register(outcome: Result<RegisterMessage, string>): (r: Response<RegisterMessage>)
    ensures r.status == CREATED <==> outcome.Success?
    ensures r.status == INTERNAL_SERVER_ERROR <==> outcome.Failure?
    ensures outcome.Success? ==> r.body == outcome.value
    ensures outcome.Failure? ==>
              r.body.message == RegisterErrorPrefix + outcome.error && r.body.accessToken == None
  {
    match outcome
    case Success(msg) => Response(CREATED, msg)
    case Failure(e) => Response(INTERNAL_SERVER_ERROR, RegisterMessage(RegisterErrorPrefix + e, None))
  }

  /** True when the login identifier is missing or empty. */
  predicate MissingUsername(form: LoginForm)
  {
    form.username == None || form.username == Some("")
  }

  /** login: refuse a missing identifier with 400 before the service is
      consulted; otherwise 200 with the service's body, or 401 carrying only
      the error text. */
  function Login(form: LoginForm, service: LoginService): (r: Response<JwtResponseMessage>)
    ensures MissingUsername(form) ==>
              r == Response(BAD_REQUEST, JwtResponseMessage(None, None, Some(InformationMessage(EmptyUsernameMessage))))
    ensures r.status == OK <==> !MissingUsername(form) && service(form).Success?
    ensures r.status == OK ==> r.body == service(form).value
    ensures r.status == UNAUTHORIZED <==> !MissingUsername(form) && service(form).Failure?
    ensures r.status == UNAUTHORIZED ==>
              r.body == JwtResponseMessage(None, None, Some(InformationMessage(service(form).error)))
  {
    if MissingUsername(form) then
      Response(BAD_REQUEST, JwtResponseMessage(None, None, Some(InformationMessage(EmptyUsernameMessage))))
    else
      match service(form)
      case Success(body) => Response(OK, body)
      case Failure(e) => Response(UNAUTHORIZED, JwtResponseMessage(None, None, Some(InformationMessage(e))))
  }

  /** With a missing identifier the answer does not depend on the login
      service at all: the service is never consulted. */
  lemma LoginGuardIgnoresService(form: LoginForm, s1: LoginService, s2: LoginService)
    requires MissingUsername(form)
    ensures Login(form, s1) == Login(form, s2)
    ensures Login(form, s1).status == BAD_REQUEST
  {}

  /** logout: 200 when the service completes, 400 when it fails; the
      service's value, if any, is ignored. */
  function Logout(outcome: Result<(), string>): (r: Response<string>)
    ensures outcome.Success? <==> r == Response(OK, "Logged out successfully.")
    ensures outcome.Failure? <==> r == Response(BAD_REQUEST, "Logout failed.")
  {
    match outcome
    case Success(_) => Response(OK, "Logged out successfully.")
    case Failure(_) => Response(BAD_REQUEST, "Logout failed.")
  }

  /** The validate endpoint: 200 "Valid token" for a true verdict, 401
      "Invalid token" for a false one; a validator error is not caught and
      leaves the endpoint unchanged. */
  function ValidateTokenEndpoint(verdict: Result<bool, TokenValidate.TokenError>): (r: Result<Response<TokenValidationResponse>, TokenValidate.TokenError>)
    ensures verdict == Success(true) <==> r == Success(Response(OK, TokenValidationResponse("Valid token")))
    ensures verdict == Success(false) <==> r == Success(Response(UNAUTHORIZED, TokenValidationResponse("Invalid token")))
    ensures verdict.Failure? <==> r.Failure?
    ensures verdict.Failure? ==> r.error == verdict.error
  {
    match verdict
    case Success(valid) =>
      if valid then Success(Response(OK, TokenValidationResponse("Valid token")))
      else Success(Response(UNAUTHORIZED, TokenValidationResponse("Invalid token")))
    case Failure(e) => Failure(e)
  }

  /** The validate endpoint wired to the token validator: the header value
      is handed over as it is (the framework guarantees a header). */
  function ValidateTokenRequest(v: TokenValidate.TokenValidator, header: string, parse: TokenValidate.Parser, now: int): (r: Result<Response<TokenValidationResponse>, TokenValidate.TokenError>)
    ensures header == "" ==> r == Failure(TokenValidate.Rejected(TokenValidate.NullOrEmptyMessage))
  {
    ValidateTokenEndpoint(TokenValidate.ValidateToken(v, Some(header), parse, now))
  }

  /** End to end, the validate endpoint answers 200 exactly for a token the
      parser accepts with an expiry strictly after now, and "Bearer t"
      gets the same answer as t. */
  lemma ValidateRequestAnswers(v: TokenValidate.TokenValidator, t: string, parse: TokenValidate.Parser, now: int)
    requires t != "" && !TokenValidate.HasBearerPrefix(t)
    ensures ValidateTokenRequest(v, t, parse, now).Success? && ValidateTokenRequest(v, t, parse, now).value.status == OK
            <==> var o := parse(v.key, t, now); o.Parsed? && o.expiry.Some? && o.expiry.value > now
    ensures ValidateTokenRequest(v, TokenValidate.BearerPrefix + t, parse, now) == ValidateTokenRequest(v, t, parse, now)
  {}

  /** The authority check: 200 exactly when the required role is, by exact
      case-sensitive comparison, one of the extracted authorities; 401
      otherwise, with the reason. An extraction failure never escapes. */
  function GetAuthority(authorities: Result<seq<string>, string>, requiredRole: string): (r: Response<TokenValidationResponse>)
    ensures r.status == OK <==> authorities.Success? && requiredRole in authorities.value
    ensures r.status == OK || r.status == UNAUTHORIZED
    ensures r.status == OK ==> r.body.message == "Role access API"
    ensures authorities.Success? && requiredRole !in authorities.value ==>
              r == Response(UNAUTHORIZED, TokenValidationResponse("User does not have the required authority"))
    ensures authorities.Failure? ==> r == Response(UNAUTHORIZED, TokenValidationResponse("Invalid token"))
  {
    match authorities
    case Failure(_) => Response(UNAUTHORIZED, TokenValidationResponse("Invalid token"))
    case Success(list) =>
      if requiredRole in list then Response(OK, TokenValidationResponse("Role access API"))
      else Response(UNAUTHORIZED, TokenValidationResponse("User does not have the required authority"))
  }

  /** No role hierarchy and no case folding: an ADMIN-only token is refused
      USER access, and "admin" does not match "ADMIN". */
  lemma AuthorityHasNoHierarchy()
    ensures GetAuthority(Success(["ADMIN"]), "USER").status == UNAUTHORIZED
    ensures GetAuthority(Success(["ADMIN"]), "admin").status == UNAUTHORIZED
    ensures GetAuthority(Success(["ADMIN"]), "ADMIN").status == OK
  {}
}
