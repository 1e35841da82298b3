/**
 * The API entry point (lambda/index.ts): the origin gate, the preflight short-circuit, the
 * fixed route table and the 404 fallback. lambda/api/index.ts routes requests the same way
 * (same gate, same order, same table), so this one model stands for both entry points.
 */
module Gateway {
  import opened Wrappers
  import opened Cors

  /** A request as the gateway delivers it; a header that is absent is not in the map. */
  datatype Request = Request(httpMethod: string, path: string, body: Option<string>, headers: map<string, string>)

  /** JavaScript's `a || b` on optional strings: `a` unless it is absent or empty. */
  function OrElse(a: Option<string>, b: Option<string>): (r: Option<string>)
    ensures a.Some? && a.value != "" ==> r == a
    ensures (a.None? || a.value == "") ==> r == b
  {
    if a.Some? && a.value != "" then a else b
  }

  function Header(req: Request, name: string): Option<string> {
    if name in req.headers then Some(req.headers[name]) else None
  }

  /** `headers.referer || headers.Referer || ''` */
  function Referer(req: Request): (r: string)
    ensures Header(req, "referer").Some? && Header(req, "referer").value != "" ==> r == req.headers["referer"]
    ensures Header(req, "referer") in {None, Some("")} && "Referer" in req.headers ==> r == req.headers["Referer"]
    ensures Header(req, "referer") in {None, Some("")} && "Referer" !in req.headers ==> r == ""
  {
    OrElse(Header(req, "referer"), Header(req, "Referer")).GetOr("")
  }

  /** `headers.authorization || headers.Authorization`, possibly absent. */
  function AuthHeader(req: Request): (auth: Option<string>)
    ensures "authorization" in req.headers && req.headers["authorization"] != "" ==> auth == Some(req.headers["authorization"])
    ensures ("authorization" !in req.headers || req.headers["authorization"] == "") ==>
              auth == (if "Authorization" in req.headers then Some(req.headers["Authorization"]) else None)
  {
    OrElse(Header(req, "authorization"), Header(req, "Authorization"))
  }

  /** `body || '{}'` */
  function BodyOrDefault(req: Request): (b: string)
    ensures req.body.Some? && req.body.value != "" ==> b == req.body.value
    ensures req.body.None? || req.body.value == "" ==> b == "{}"
  {
    OrElse(req.body, None).GetOr("{}")
  }

  datatype Endpoint = LoginEndpoint | RegisterEndpoint | ConfirmEndpoint | ResendEndpoint
                    | VerifyEndpoint | UploadEndpoint | ImagesEndpoint

  /** The route table: the method and path each endpoint answers. */
  function RouteOf(e: Endpoint): (string, string) {
    match e
    case LoginEndpoint => ("POST", "/auth/login")
    case RegisterEndpoint => ("POST", "/auth/register")
    case ConfirmEndpoint => ("POST", "/auth/confirm")
    case ResendEndpoint => ("POST", "/auth/resend")
    case VerifyEndpoint => ("GET", "/auth/verify")
    case UploadEndpoint => ("POST", "/upload")
    case ImagesEndpoint => ("GET", "/images")
  }

  /** The chain of route tests, in the order the source tries them. */
  function Match(httpMethod: string, path: string): (e: Option<Endpoint>)
    ensures e.Some? ==> RouteOf(e.value) == (httpMethod, path)
  {
    if httpMethod == "POST" && path == "/auth/login" then Some(LoginEndpoint)
    else if httpMethod == "POST" && path == "/auth/register" then Some(RegisterEndpoint)
    else if httpMethod == "POST" && path == "/auth/confirm" then Some(ConfirmEndpoint)
    else if httpMethod == "POST" && path == "/auth/resend" then Some(ResendEndpoint)
    else if httpMethod == "GET" && path == "/auth/verify" then Some(VerifyEndpoint)
    else if httpMethod == "POST" && path == "/upload" then Some(UploadEndpoint)
    else if httpMethod == "GET" && path == "/images" then Some(ImagesEndpoint)
    else None
  }

  /**
   * The routes are pairwise distinct, so the order of the tests does not matter: a request
   * reaches the endpoint whose route it names, and only that one.
   */
  lemma RoutesDistinct(e: Endpoint, httpMethod: string, path: string)
    ensures Match(httpMethod, path) == Some(e) <==> RouteOf(e) == (httpMethod, path)
  {
  }

  /** A handler call, with the arguments the router hands over. */
  datatype Call =
    | Login(body: string)
    | Register(body: string)
    | Confirm(body: string)
    | Resend(body: string)
    | Verify(auth: Option<string>)
    | Upload(body: string, auth: Option<string>)
    | ListImages(auth: Option<string>)
  {
    function Endpoint(): Endpoint {
      match this
      case Login(_) => LoginEndpoint
      case Register(_) => RegisterEndpoint
      case Confirm(_) => ConfirmEndpoint
      case Resend(_) => ResendEndpoint
      case Verify(_) => VerifyEndpoint
      case Upload(_, _) => UploadEndpoint
      case ListImages(_) => ImagesEndpoint
    }
  }

  /**
   * What the entry point does with a request: 403 with no CORS origin, 200 with an empty
   * body for a preflight, a call into one handler with the CORS headers, or 404.
   */
  datatype Response =
    | Forbidden
    | Preflight(cors: CorsHeaders)
    | Dispatched(call: Call, cors: CorsHeaders)
    | NotFound(cors: CorsHeaders)

  /** The handler call for a routed request, with the arguments lambda/index.ts passes it. */
  function CallFor(e: Endpoint, req: Request): (c: Call)
    ensures c.Endpoint() == e
    ensures c.Verify? || c.Upload? || c.ListImages? ==> c.auth == AuthHeader(req)
    ensures !(c.Verify? || c.ListImages?) ==> c.body == BodyOrDefault(req)
  {
    match e
    case LoginEndpoint => Login(BodyOrDefault(req))
    case RegisterEndpoint => Register(BodyOrDefault(req))
    case ConfirmEndpoint => Confirm(BodyOrDefault(req))
    case ResendEndpoint => Resend(BodyOrDefault(req))
    case VerifyEndpoint => Verify(AuthHeader(req))
    case UploadEndpoint => Upload(BodyOrDefault(req), AuthHeader(req))
    case ImagesEndpoint => ListImages(AuthHeader(req))
  }

  function Handle(req: Request): (r: Response)
    ensures r.Forbidden? <==> !CheckOrigin(Referer(req)) && req.httpMethod != "OPTIONS"
    ensures r.Preflight? <==> req.httpMethod == "OPTIONS"
    ensures r.Dispatched? ==> CheckOrigin(Referer(req)) &&
                              RouteOf(r.call.Endpoint()) == (req.httpMethod, req.path)
    ensures r.NotFound? <==> CheckOrigin(Referer(req)) && req.httpMethod != "OPTIONS" &&
                             Match(req.httpMethod, req.path).None?
    ensures !r.Forbidden? ==> r.cors == GetCorsHeaders(Referer(req))
    ensures r.Dispatched? && (r.call.Verify? || r.call.Upload? || r.call.ListImages?) ==>
              r.call.auth == AuthHeader(req)
    ensures r.Dispatched? && !(r.call.Verify? || r.call.ListImages?) ==> r.call.body == BodyOrDefault(req)
  {
    var referer := Referer(req);
    if !CheckOrigin(referer) && req.httpMethod != "OPTIONS" then Forbidden
    else
      var cors := GetCorsHeaders(referer);
      if req.httpMethod == "OPTIONS" then Preflight(cors)
      else match Match(req.httpMethod, req.path)
        case Some(e) => Dispatched(CallFor(e, req), cors)
        case None => NotFound(cors)
  }

  /** The HTTP status the entry point answers with; a dispatched call answers with its handler's. */
  function Status(r: Response, handlerStatus: int): int {
    match r
    case Forbidden => 403
    case Preflight(_) => 200
    case Dispatched(_, _) => handlerStatus
    case NotFound(_) => 404
  }

  /** A preflight is answered 200 whatever its referer, even one the gate would refuse. */
  lemma PreflightAlwaysAnswered(req: Request, handlerStatus: int)
    requires req.httpMethod == "OPTIONS"
    ensures Status(Handle(req), handlerStatus) == 200
    ensures Handle(req).cors.allowOrigin == ReflectedOrigin(Referer(req))
  {
  }

  /** A refused request reaches no handler, whatever its route. */
  lemma RefusedReachesNoHandler(req: Request, handlerStatus: int)
    requires !CheckOrigin(Referer(req)) && req.httpMethod != "OPTIONS"
    ensures !Handle(req).Dispatched? && Status(Handle(req), handlerStatus) == 403
  {
  }

  /** A handler that takes a body gets `'{}'` in place of a missing or empty one. */
  lemma MissingBodyDefaulted(req: Request)
    requires req.body in {None, Some("")}
    requires Handle(req).Dispatched? && Handle(req).call.Endpoint() != VerifyEndpoint
    requires Handle(req).call.Endpoint() != ImagesEndpoint
    ensures Handle(req).call.body == "{}"
  {
  }
}
