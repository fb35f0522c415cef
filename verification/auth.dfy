/** The shared-secret check of `AuthHandler.ServeHTTP`. */
module Auth {
  import opened Wrappers

  /** Only what the check reads: the URL path (`None` for a nil URL) and the
      header map from canonical names to their list of values. */
  datatype HttpRequest = HttpRequest(path: Option<string>, header: map<string, seq<string>>)

  const HealthzPath := "/healthz"
  const TokenHeader := "X-Gitlab-Token"
  const StatusUnauthorized := 401

  /** Forward to the wrapped handler, or answer at once with a status code. */
  datatype AuthOutcome = Forward | Reject(status: int)

  /** Go indexes the first header value without a length check. */
  predicate AuthSafe(req: HttpRequest)
  {
    req.path != Some(HealthzPath) && TokenHeader in req.header ==> |req.header[TokenHeader]| > 0
  }

  function Authorize(req: HttpRequest, secret: string): (r: AuthOutcome)
    requires AuthSafe(req)
    ensures r.Reject? ==> r.status == StatusUnauthorized
    ensures req.path == Some(HealthzPath) ==> r == Forward
    ensures req.path != Some(HealthzPath) ==>
              (r == Forward <==> TokenHeader in req.header && req.header[TokenHeader][0] == secret)
  {
    if req.path.Some? && req.path.value == HealthzPath then Forward
    else if TokenHeader !in req.header || req.header[TokenHeader][0] != secret then Reject(StatusUnauthorized)
    else Forward
  }

  /** The health check is reachable with no token and with any secret. */
  lemma HealthzBypassesAuth(header: map<string, seq<string>>, secret: string)
    ensures Authorize(HttpRequest(Some(HealthzPath), header), secret) == Forward
  {
  }

  /** A request without the token header is refused, a nil URL included. */
  lemma MissingTokenRefused(req: HttpRequest, secret: string)
    requires req.path != Some(HealthzPath) && TokenHeader !in req.header
    ensures Authorize(req, secret) == Reject(StatusUnauthorized)
  {
  }

  /** Only the first token value is compared: later values never matter. */
  lemma OnlyFirstTokenValueCounts(req: HttpRequest, extra: seq<string>, secret: string)
    requires AuthSafe(req) && TokenHeader in req.header
    ensures AuthSafe(req.(header := req.header[TokenHeader := req.header[TokenHeader] + extra]))
    ensures Authorize(req.(header := req.header[TokenHeader := req.header[TokenHeader] + extra]), secret)
         == Authorize(req, secret)
  {
  }

  /** No header other than the token header affects the outcome. */
  lemma OtherHeadersIrrelevant(req: HttpRequest, name: string, values: seq<string>, secret: string)
    requires AuthSafe(req) && name != TokenHeader
    ensures AuthSafe(req.(header := req.header[name := values]))
    ensures Authorize(req.(header := req.header[name := values]), secret) == Authorize(req, secret)
  {
  }
}
