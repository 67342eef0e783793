/**
 * The request-level decisions of index.js around the engine: the target URL
 * normalisation (index.js:103-109), the OPTIONS short-circuit
 * (index.js:149-154) and the forwarded URL (index.js:161).
 */
module Proxy {
  import opened Wrappers
  import opened Strings
  import opened Rules
  import opened Engine

  /** `target` ends in a slash. */
  predicate EndsWithSlash(target: string)
  {
    |target| > 0 && target[|target| - 1] == '/'
  }

  /** `target.replace(/\/$/, '')`: at most one trailing slash is removed. */
  function NormaliseTarget(target: string): (r: string)
    ensures target == r || target == r + "/"
    ensures r != target <==> EndsWithSlash(target)
  {
    if EndsWithSlash(target) then target[..|target| - 1] else target
  }

  /** Exactly one slash goes: whatever `s` is, a slash appended to it is the one removed. */
  lemma NormaliseUndoesOneSlash(s: string)
    ensures NormaliseTarget(s + "/") == s
  {
    assert (s + "/")[..|s|] == s;
  }

  /** Why the bootstrap refuses to start. */
  datatype StartupError = MissingTarget

  /**
   * index.js:103-109: a missing or empty target aborts start-up; any other
   * target loses a trailing slash, and only one.
   */
  function ResolveTarget(target: Option<string>): (r: Result<string, StartupError>)
    ensures r.Failure? <==> (target.None? || target.value == "")
    ensures r.Success? ==> target.value == r.value || target.value == r.value + "/"
    ensures r.Success? ==> (r.value != target.value <==> EndsWithSlash(target.value))
  {
    if target.None? || target.value == "" then Failure(MissingTarget)
    else Success(NormaliseTarget(target.value))
  }

  lemma LowerOptions()
    ensures Lower("OPTIONS") == "options"
  {
    assert |Lower("OPTIONS")| == 7;
    forall i | 0 <= i < 7 ensures Lower("OPTIONS")[i] == "options"[i] {}
  }

  /**
   * `req.method.toLowerCase() === 'options'`: a case-insensitive comparison
   * with `OPTIONS`, letter by letter.
   */
  predicate IsPreflight(httpMethod: string)
    ensures IsPreflight(httpMethod) <==> SameIgnoringCase(httpMethod, "OPTIONS")
  {
    LowerOptions();
    LowerEqualIff(httpMethod, "OPTIONS");
    Lower(httpMethod) == "options"
  }

  /**
   * What the proxy does with a request: answer a preflight itself, forward
   * to the target, or leave the request to Express's final handler (a 404),
   * because the forwarder is mounted under `baseUrl` only.
   */
  datatype Action = Preflight | Forward(targetUrl: string) | NotProxied

  /** `${target}${req.url}`. */
  function TargetUrl(target: string, url: string): (r: string)
    ensures |r| == |target| + |url|
    ensures r[..|target|] == target && r[|target|..] == url
  {
    target + url
  }

  /**
   * The middleware chain for one request. `underBaseUrl` says whether
   * Express's mount at `baseUrl` (index.js:157) matches the request path;
   * `req.url` is then the mount-relative URL. OPTIONS, in any letter case,
   * is answered locally whether or not the path is under `baseUrl`; any
   * other request is forwarded exactly when it is under `baseUrl`.
   */
  function Route(req: Request, target: string, underBaseUrl: bool): (a: Action)
    ensures a.Preflight? <==> SameIgnoringCase(req.httpMethod, "OPTIONS")
    ensures a.Forward? <==> !SameIgnoringCase(req.httpMethod, "OPTIONS") && underBaseUrl
    ensures a.Forward? ==> a.targetUrl == TargetUrl(target, req.url)
  {
    if IsPreflight(req.httpMethod) then Preflight
    else if underBaseUrl then Forward(TargetUrl(target, req.url))
    else NotProxied
  }

  /**
   * Handling of one request by the proxy's own middleware, up to the
   * hand-off to the upstream stream or to Express's final handler. A
   * preflight gets status 200, the overrides and an empty body (the
   * headers Express's `send` then adds are not modelled); any other
   * request leaves the response as it was and says where it goes next.
   */
  method HandleRequest(req: Request, target: string, underBaseUrl: bool, rules: RuleSet, res: Response)
    returns (action: Action)
    requires res.Valid()
    modifies res
    ensures res.Valid()
    ensures action == Route(req, target, underBaseUrl)
    ensures action.Preflight? ==>
              && res.statusCode == 200
              && res.body == Some("")
              && res.headers == ApplyAll(old(res.headers), rules, req)
    ensures !action.Preflight? ==>
              res.statusCode == old(res.statusCode) && res.headers == old(res.headers) && res.body == old(res.body)
  {
    if IsPreflight(req.httpMethod) {
      res.Status(200);
      res.ApplyHeaderOverrides(rules, req);
      res.Send("");
      return Preflight;
    }
    if underBaseUrl {
      action := Forward(TargetUrl(target, req.url));
    } else {
      action := NotProxied;
    }
  }

  /** A doubled trailing slash loses only one slash, so normalising is not idempotent. */
  lemma DoubleSlashKeepsOne()
    ensures NormaliseTarget("http://x//") == "http://x/"
    ensures NormaliseTarget(NormaliseTarget("http://x//")) == "http://x"
  {
    NormaliseUndoesOneSlash("http://x/");
    NormaliseUndoesOneSlash("http://x");
  }

  /** A target configured with a trailing slash forwards to the target followed directly by the request URL. */
  lemma ForwardedUrlOfSlashedTarget(base: string, req: Request)
    requires !IsPreflight(req.httpMethod)
    requires ResolveTarget(Some(base + "/")).Success?
    ensures Route(req, ResolveTarget(Some(base + "/")).value, true) == Forward(base + req.url)
  {
    NormaliseUndoesOneSlash(base);
  }

  /** Some spellings of the method and what the proxy makes of them. */
  lemma PreflightSpellings()
    ensures IsPreflight("OPTIONS") && IsPreflight("options") && IsPreflight("Options")
    ensures !IsPreflight("GET") && !IsPreflight("OPTION")
  {
  }
}
