/**
 * The serverless `verify-admin-secret` handler: one request in, one response
 * out. The environment read of `ADMIN_SECRET` and the parsed JSON body are
 * parameters; the HTTP server around the handler is not modelled.
 *
 * Status codes follow HTTP semantics (RFC 9110): 200 for a match, 401
 * Unauthorized (section 15.5.2) for a wrong secret, 400 Bad Request
 * (section 15.5.1) for an unreadable body or a missing configuration.
 */
module VerifyAdminSecret {
  import opened Wrappers

  /**
   * What `await req.json()` followed by `const { secret } = ...` produced:
   * either the thrown error's message, or the `secret` property, which is
   * None when it is absent or is not a string (no such value is `===` to a
   * string).
   */
  datatype Body = Unreadable(message: string) | Parsed(secret: Option<string>)

  datatype Request = Request(httpMethod: string, body: Body)

  datatype Payload =
    | PlainText(text: string)
    | Verdict(valid: bool, error: Option<string>)

  datatype Response = Response(status: nat, payload: Payload, headers: map<string, string>)

  const NotConfiguredMessage := "Admin secret not configured"
  const InvalidSecretMessage := "Invalid secret"

  /** The permissive cross-origin headers every response carries. */
  const CorsHeaders: map<string, string> := map[
    "Access-Control-Allow-Origin" := "*",
    "Access-Control-Allow-Headers" := "authorization, x-client-info, apikey, content-type"
  ]

  const JsonHeaders: map<string, string> := CorsHeaders["Content-Type" := "application/json"]

  /** `!ADMIN_SECRET` is false: the variable is set and not empty. */
  predicate Configured(adminSecret: Option<string>) {
    adminSecret.Some? && adminSecret.value != ""
  }

  /** The intended verdict: the candidate is exactly the configured, non-empty secret. */
  predicate Matches(candidate: Option<string>, adminSecret: Option<string>) {
    Configured(adminSecret) && candidate == Some(adminSecret.value)
  }

  predicate IsPreflight(req: Request) {
    req.httpMethod == "OPTIONS"
  }

  /** Every key of `CorsHeaders` is present in `headers` with the same value. */
  predicate HasCors(headers: map<string, string>) {
    forall k :: k in CorsHeaders ==> k in headers && headers[k] == CorsHeaders[k]
  }

  /**
   * The handler. A pre-flight request is answered before the body is read;
   * otherwise the body is read first, then the configuration, then the
   * candidate is compared with `===`.
   */
  function Handle(req: Request, adminSecret: Option<string>): (r: Response)
    ensures HasCors(r.headers)
    ensures r.status in {200, 400, 401}
    ensures IsPreflight(req) ==> r == Response(200, PlainText("ok"), CorsHeaders)
    ensures !IsPreflight(req) ==> r.payload.Verdict? && r.headers == JsonHeaders
    // the verdict is true exactly on a match, and only with status 200
    ensures (r.payload.Verdict? && r.payload.valid) <==>
              (!IsPreflight(req) && req.body.Parsed? && Matches(req.body.secret, adminSecret))
    ensures r.payload.Verdict? ==> (r.payload.valid <==> r.status == 200)
    // a wrong (or missing) candidate against a configured secret is 401
    ensures r.status == 401 <==>
              (!IsPreflight(req) && req.body.Parsed? && Configured(adminSecret)
               && !Matches(req.body.secret, adminSecret))
    ensures r.status == 401 ==> r.payload == Verdict(false, Some(InvalidSecretMessage))
    // an unreadable body or a missing configuration is 400, with the error's message
    ensures r.status == 400 <==> (!IsPreflight(req) && (req.body.Unreadable? || !Configured(adminSecret)))
    ensures r.status == 400 ==>
              r.payload == Verdict(false, Some(if req.body.Unreadable? then req.body.message
                                               else NotConfiguredMessage))
  {
    if req.httpMethod == "OPTIONS" then
      Response(200, PlainText("ok"), CorsHeaders)
    else
      match req.body
      case Unreadable(message) => Response(400, Verdict(false, Some(message)), JsonHeaders)
      case Parsed(secret) =>
        if adminSecret.None? || adminSecret.value == "" then
          Response(400, Verdict(false, Some(NotConfiguredMessage)), JsonHeaders)
        else if secret == Some(adminSecret.value) then
          Response(200, Verdict(true, None), JsonHeaders)
        else
          Response(401, Verdict(false, Some(InvalidSecretMessage)), JsonHeaders)
  }

  /** Without a configured secret no request is ever told `valid: true`. */
  lemma NeverValidWhenUnconfigured(req: Request, adminSecret: Option<string>)
    requires !Configured(adminSecret)
    ensures var r := Handle(req, adminSecret);
      !(r.payload.Verdict? && r.payload.valid) &&
      (!IsPreflight(req) ==> r.status == 400)
  {
  }

  /** An empty or missing candidate is never accepted, whatever the configuration. */
  lemma EmptyCandidateNeverValid(req: Request, adminSecret: Option<string>)
    requires req.body == Parsed(None) || req.body == Parsed(Some(""))
    ensures !Handle(req, adminSecret).payload.Verdict? || !Handle(req, adminSecret).payload.valid
  {
  }
}
