/**
 * internal/handlers/grpc/auth/auth.go: the gRPC handlers. Each validates its
 * request, calls the service (passed here as a function of the request's
 * fields, its result being what AuthService returns), and maps the service's
 * error to a status code with a fixed message that never carries the cause.
 */
module GrpcAuth {
  import opened Wrappers
  import opened Errors
  import opened Uuid

  /** The status codes the handlers use. */
  datatype Code = InvalidArgument | AlreadyExists | Internal | NotFound

  /** A response message, or status.Error(code, message). */
  datatype Reply<+T> = Ok(value: T) | Status(code: Code, message: string)

  datatype RegisterRequest = RegisterRequest(email: string, password: string)
  datatype LoginRequest = LoginRequest(email: string, password: string)
  datatype IsAdminRequest = IsAdminRequest(userId: string)

  /** The messages a failed call can carry. */
  predicate FixedMessage(m: string) {
    m in {"email is required", "password is required", "user already exists", "failed to register user",
          "invalid email or password", "failed to login", "user_id is required", "invalid user ID format",
          "user not found", "failed to check admin status"}
  }

  /** The checks Register and Login share: an empty email first, then an empty password. */
  function CheckCredentials(email: string, password: string): (r: Option<Reply<string>>)
    ensures r.Some? <==> email == "" || password == ""
    ensures r.Some? ==> r.value.Status? && r.value.code == InvalidArgument
    ensures email == "" ==> r == Some(Status(InvalidArgument, "email is required"))
    ensures email != "" && password == "" ==> r == Some(Status(InvalidArgument, "password is required"))
  {
    if email == "" then Some(Status(InvalidArgument, "email is required"))
    else if password == "" then Some(Status(InvalidArgument, "password is required"))
    else None
  }

  /** The reply to the service's Register result: the id's string form, AlreadyExists for a taken email, Internal otherwise. */
  function RegisterReply(id: Uuid, err: Option<Error>): (r: Reply<string>)
    ensures r.Ok? <==> err.None?
    ensures r.Ok? ==> r.value == ToString(id) && Parse(r.value) == Some(id)
    ensures r.Status? ==> r.code != InvalidArgument && FixedMessage(r.message)
    ensures r.Status? && r.code == AlreadyExists <==> err.Some? && Is(err.value, ErrUserExists)
  {
    ParseToString(id);
    if err.None? then Ok(ToString(id))
    else if Is(err.value, ErrUserExists) then Status(AlreadyExists, "user already exists")
    else Status(Internal, "failed to register user")
  }

  /** as.Register */
  function Register(req: RegisterRequest, service: (string, string) -> (Uuid, Option<Error>)): (r: Reply<string>)
    ensures r.Status? ==> FixedMessage(r.message)
    ensures r.Ok? ==> |r.value| == 36
    ensures r.Ok? <==> req.email != "" && req.password != "" && service(req.email, req.password).1.None?
    ensures r.Status? && r.code == AlreadyExists <==>
      req.email != "" && req.password != "" && service(req.email, req.password).1.Some?
      && Is(service(req.email, req.password).1.value, ErrUserExists)
  {
    match CheckCredentials(req.email, req.password)
    case Some(invalid) => invalid
    case None =>
      var (id, err) := service(req.email, req.password);
      RegisterReply(id, err)
  }

  /** The reply to the service's Login result: the token unchanged, InvalidArgument for invalid credentials, Internal otherwise. */
  function LoginReply(token: string, err: Option<Error>): (r: Reply<string>)
    ensures r.Ok? <==> err.None?
    ensures r.Ok? ==> r.value == token
    ensures r.Status? ==> r.code != AlreadyExists && r.code != NotFound && FixedMessage(r.message)
    ensures r.Status? && r.code == InvalidArgument <==> err.Some? && Is(err.value, ErrInvalidCredentials)
  {
    if err.None? then Ok(token)
    else if Is(err.value, ErrInvalidCredentials) then Status(InvalidArgument, "invalid email or password")
    else Status(Internal, "failed to login")
  }

  /** as.Login */
  function Login(req: LoginRequest, service: (string, string) -> (string, Option<Error>)): (r: Reply<string>)
    ensures r.Status? ==> FixedMessage(r.message)
    ensures r.Ok? <==> req.email != "" && req.password != "" && service(req.email, req.password).1.None?
    ensures r.Ok? ==> r.value == service(req.email, req.password).0
    ensures r == Status(InvalidArgument, "invalid email or password") <==>
      req.email != "" && req.password != "" && service(req.email, req.password).1.Some?
      && Is(service(req.email, req.password).1.value, ErrInvalidCredentials)
  {
    match CheckCredentials(req.email, req.password)
    case Some(invalid) => invalid
    case None =>
      var (token, err) := service(req.email, req.password);
      LoginReply(token, err)
  }

  /** The reply to the service's IsAdmin result: the flag, NotFound for invalid credentials, Internal otherwise. */
  function AdminReply(isAdmin: bool, err: Option<Error>): (r: Reply<bool>)
    ensures r.Ok? <==> err.None?
    ensures r.Ok? ==> r.value == isAdmin
    ensures r.Status? ==> (r.code == NotFound || r.code == Internal) && FixedMessage(r.message)
    ensures r.Status? && r.code == NotFound <==> err.Some? && Is(err.value, ErrInvalidCredentials)
  {
    if err.None? then Ok(isAdmin)
    else if Is(err.value, ErrInvalidCredentials) then Status(NotFound, "user not found")
    else Status(Internal, "failed to check admin status")
  }

  /** as.IsAdmin: an empty or unparseable user_id is rejected before the service is asked. */
  function IsAdmin(req: IsAdminRequest, service: Uuid -> (bool, Option<Error>)): (r: Reply<bool>)
    ensures r.Status? ==> FixedMessage(r.message)
    ensures req.userId == "" ==> r == Status(InvalidArgument, "user_id is required")
    ensures req.userId != "" && Parse(req.userId).None? ==> r == Status(InvalidArgument, "invalid user ID format")
    ensures r.Ok? <==> Parse(req.userId).Some? && service(Parse(req.userId).value).1.None?
    ensures r.Ok? ==> r.value == service(Parse(req.userId).value).0
    ensures r.Status? && r.code == NotFound <==>
      Parse(req.userId).Some? && service(Parse(req.userId).value).1.Some?
      && Is(service(Parse(req.userId).value).1.value, ErrInvalidCredentials)
  {
    if req.userId == "" then Status(InvalidArgument, "user_id is required")
    else match Parse(req.userId)
      case None => Status(InvalidArgument, "invalid user ID format")
      case Some(userID) =>
        var (isAdmin, err) := service(userID);
        AdminReply(isAdmin, err)
  }

  /** A request that fails validation is answered without the service: any two services give the same reply. */
  lemma InvalidRequestsSkipTheService(email: string, password: string, userId: string,
                                      reg1: (string, string) -> (Uuid, Option<Error>), reg2: (string, string) -> (Uuid, Option<Error>),
                                      log1: (string, string) -> (string, Option<Error>), log2: (string, string) -> (string, Option<Error>),
                                      adm1: Uuid -> (bool, Option<Error>), adm2: Uuid -> (bool, Option<Error>))
    ensures email == "" || password == "" ==>
      && Register(RegisterRequest(email, password), reg1) == Register(RegisterRequest(email, password), reg2)
      && Login(LoginRequest(email, password), log1) == Login(LoginRequest(email, password), log2)
    ensures Parse(userId).None? ==> IsAdmin(IsAdminRequest(userId), adm1) == IsAdmin(IsAdminRequest(userId), adm2)
  {
  }

  /** A client that sends back the id Register returned asks the service about exactly that user. */
  lemma IsAdminOfReturnedId(u: Uuid, service: Uuid -> (bool, Option<Error>))
    ensures IsAdmin(IsAdminRequest(ToString(u)), service) == AdminReply(service(u).0, service(u).1)
  {
    ParseToString(u);
  }

  /** Any error that wraps ErrInvalidCredentials, whichever check produced it, gets the same reply. */
  lemma InvalidCredentialsLookAlike(req: LoginRequest, s1: (string, string) -> (string, Option<Error>), s2: (string, string) -> (string, Option<Error>))
    requires req.email != "" && req.password != ""
    requires s1(req.email, req.password).1.Some? && Is(s1(req.email, req.password).1.value, ErrInvalidCredentials)
    requires s2(req.email, req.password).1.Some? && Is(s2(req.email, req.password).1.value, ErrInvalidCredentials)
    ensures Login(req, s1) == Login(req, s2) == Status(InvalidArgument, "invalid email or password")
  {
  }
}
