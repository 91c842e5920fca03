/**
 * The life of one conversion request, as a terminal state machine:
 * rate check, cookie check, argument validation, download (or local file),
 * conversion, response. Each stage either moves to the next or ends the
 * request with exactly one response. The collaborators (cookie verifier,
 * downloader, worker pool and converter) enter as their outcomes; the
 * record of calls made to them shows which were reached.
 */
module Handler {
  import opened Common
  import opened Arguments
  import opened Routing
  import opened Responses
  import RateLimit

  /** What the cookie verifier answered. */
  datatype CookieOutcome =
    | Verified
    | Refused(code: int, location: Option<string>)  // an HTTP error, with its Location header if any

  /** What downloading a remote input gave. */
  datatype FetchOutcome = Fetched(text: string) | FetchFailed

  /** What handing the job to the worker pool and running the converter gave. */
  datatype ConversionOutcome =
    | SubmitFailed              // the pool refused the job
    | ConversionFailed          // the converter raised
    | Converted(output: seq<byte>)

  /** Everything about one request that the handler does not decide itself. */
  datatype Collaborators = Collaborators(
    cookie: CookieOutcome,
    query: Query,
    conv: Conversions,
    fetch: FetchOutcome,
    conversion: ConversionOutcome,
    known: StatusTable,
    expires: string)

  /** The converter's input: a local file path or the downloaded text. */
  datatype Input = LocalFile(path: string) | Downloaded(text: string)

  /** A call to a collaborator. */
  datatype Call =
    | RateCheck
    | CookieCheck
    | Download(url: string)
    | Convert(input: Input, params: Params)

  datatype Stage =
    | Start
    | Admitted
    | Authenticated
    | Validated(params: Params)
    | Loaded(params: Params, input: Input)
    | Finished(response: Response)

  datatype Request = Request(stage: Stage, calls: seq<Call>)

  /** Stages still ahead, including the current one. */
  function Rank(s: Stage): nat {
    match s
    case Start => 5
    case Admitted => 4
    case Authenticated => 3
    case Validated(_) => 2
    case Loaded(_, _) => 1
    case Finished(_) => 0
  }

  /** One stage of the request; `admitted` is the rate limiter's verdict. */
  function Step(req: Request, admitted: bool, env: Collaborators): (next: Request)
    requires !req.stage.Finished?
    ensures Rank(next.stage) < Rank(req.stage)
    ensures |req.calls| <= |next.calls| <= |req.calls| + 1 && next.calls[..|req.calls|] == req.calls
  {
    match req.stage
    case Start =>
      var calls := req.calls + [RateCheck];
      if admitted then Request(Admitted, calls)
      else Request(Finished(ErrorPage(429, TooFrequent, map[], env.known)), calls)
    case Admitted =>
      var calls := req.calls + [CookieCheck];
      (match env.cookie
       case Verified => Request(Authenticated, calls)
       case Refused(code, location) =>
         var headers := if location.Some? then map["Location" := location.value] else map[];
         Request(Finished(ErrorPage(code, AuthenticationFailed, headers, env.known)), calls))
    case Authenticated =>
      (match Parse(env.query, env.conv)
       case None => Request(Finished(BadRequest()), req.calls)
       case Some(p) => Request(Validated(p), req.calls))
    case Validated(p) =>
      (match Classify(p.url)
       case Local(path) => Request(Loaded(p, LocalFile(path)), req.calls)
       case Forbidden => Request(Finished(ErrorPage(500, DomainRestriction, map[], env.known)), req.calls)
       case Remote(url) =>
         var calls := req.calls + [Download(url)];
         (match env.fetch
          case Fetched(text) => Request(Loaded(p, Downloaded(text)), calls)
          case FetchFailed => Request(Finished(ErrorPage(500, FetchError, map[], env.known)), calls)))
    case Loaded(p, input) =>
      match env.conversion
      case SubmitFailed => Request(Finished(ErrorPage(500, SubmitError, map[], env.known)), req.calls)
      case ConversionFailed =>
        Request(Finished(ErrorPage(500, ConversionError, map[], env.known)), req.calls + [Convert(input, p)])
      case Converted(output) =>
        Request(Finished(Delivered(output, p.outputFilename, env.expires)), req.calls + [Convert(input, p)])
  }

  /** Steps until the request is finished; the record of calls only grows. */
  function Run(req: Request, admitted: bool, env: Collaborators): (done: Request)
    ensures done.stage.Finished?
    ensures |req.calls| <= |done.calls| && done.calls[..|req.calls|] == req.calls
    decreases Rank(req.stage)
  {
    if req.stage.Finished? then req
    else Run(Step(req, admitted, env), admitted, env)
  }

  /**
   * The one response to a request, and the calls made while serving it. The
   * rate check always comes first, and the cookie verifier is asked next
   * exactly when the rate limiter admitted the call.
   */
  function Handle(admitted: bool, env: Collaborators): (r: (Response, seq<Call>))
    ensures |r.1| >= 1 && r.1[0] == RateCheck
    ensures admitted <==> |r.1| >= 2 && r.1[1] == CookieCheck
  {
    var r0 := Request(Start, []);
    var r1 := Step(r0, admitted, env);
    assert Run(r0, admitted, env) == Run(r1, admitted, env);
    assert admitted ==> Run(r1, admitted, env) == Run(Step(r1, admitted, env), admitted, env);
    var done := Run(r0, admitted, env);
    (done.stage.response, done.calls)
  }

  /** A denied call gets 429 and the error page; the cookie verifier is never asked. */
  lemma RateDenialEndsRequest(env: Collaborators)
    ensures Handle(false, env) == (ErrorPage(429, TooFrequent, map[], env.known), [RateCheck])
  {
  }

  /**
   * A refusal from the cookie verifier ends the request with the verifier's
   * status (or 500 when the framework refuses that code) and its Location
   * header when it sent one; nothing is downloaded or converted.
   */
  lemma CookieRefusalEndsRequest(env: Collaborators)
    requires env.cookie.Refused?
    ensures var (r, calls) := Handle(true, env);
      && calls == [RateCheck, CookieCheck]
      && (env.known(env.cookie.code) ==> r.status == env.cookie.code)
      && (!env.known(env.cookie.code) ==> r.status == 500)
      && ("Location" in r.headers <==> env.cookie.location.Some?)
      && (env.cookie.location.Some? ==> r.headers["Location"] == env.cookie.location.value)
      && r.body == Page("error.html", Some(AuthenticationFailed))
  {
    var r1 := Step(Request(Start, []), true, env);
    assert r1 == Request(Admitted, [RateCheck]);
    var r2 := Step(r1, true, env);
    assert r2.stage.Finished? && r2.calls == [RateCheck, CookieCheck];
  }

  /** Unacceptable arguments end the request with 400 and the help page, before any download or conversion. */
  lemma InvalidArgumentsEndRequest(env: Collaborators)
    requires env.cookie.Verified? && !Acceptable(env.query, env.conv)
    ensures Handle(true, env) == (BadRequest(), [RateCheck, CookieCheck])
  {
    var r0 := Request(Start, []);
    var r1 := Step(r0, true, env);
    var r2 := Step(r1, true, env);
    var r3 := Step(r2, true, env);
    assert r2 == Request(Authenticated, [RateCheck, CookieCheck]);
    assert r3 == Request(Finished(BadRequest()), [RateCheck, CookieCheck]);
    assert Run(r0, true, env) == Run(r1, true, env) == Run(r2, true, env) == r3;
  }

  /** With the checks passed and the arguments accepted, the request goes on from its validated parameters. */
  lemma ReachesValidation(env: Collaborators)
    requires env.cookie.Verified? && Acceptable(env.query, env.conv)
    ensures var p := Parse(env.query, env.conv).value;
      Run(Request(Start, []), true, env) == Run(Request(Validated(p), [RateCheck, CookieCheck]), true, env)
  {
    var r0 := Request(Start, []);
    var r1 := Step(r0, true, env);
    var r2 := Step(r1, true, env);
    assert r2 == Request(Authenticated, [RateCheck, CookieCheck]);
    assert Run(r0, true, env) == Run(r1, true, env) == Run(r2, true, env);
  }

  /**
   * How a request whose input is ready ends, by the worker pool's and the
   * converter's answers; `calls` is the record of calls before the conversion.
   */
  predicate EndsByConversion(done: Request, p: Params, input: Input, calls: seq<Call>, env: Collaborators) {
    && (env.conversion.SubmitFailed? ==>
          done == Request(Finished(ErrorPage(500, SubmitError, map[], env.known)), calls))
    && (env.conversion.ConversionFailed? ==>
          done == Request(Finished(ErrorPage(500, ConversionError, map[], env.known)), calls + [Convert(input, p)]))
    && (env.conversion.Converted? ==>
          done == Request(Finished(Delivered(env.conversion.output, p.outputFilename, env.expires)),
                          calls + [Convert(input, p)]))
  }

  /**
   * From validated parameters: the outcome by route, download and conversion.
   * `before` is the record of calls made so far.
   */
  lemma FromValidation(p: Params, before: seq<Call>, env: Collaborators)
    ensures var done := Run(Request(Validated(p), before), true, env);
      var route := Classify(p.url);
      && (route.Forbidden? ==>
            done == Request(Finished(ErrorPage(500, DomainRestriction, map[], env.known)), before))
      && (route.Remote? && env.fetch.FetchFailed? ==>
            done == Request(Finished(ErrorPage(500, FetchError, map[], env.known)), before + [Download(p.url)]))
      && (route.Local? ==> EndsByConversion(done, p, LocalFile(route.path), before, env))
      && (route.Remote? && env.fetch.Fetched? ==>
            EndsByConversion(done, p, Downloaded(env.fetch.text), before + [Download(p.url)], env))
  {
    var r3 := Request(Validated(p), before);
    var r4 := Step(r3, true, env);
    assert Run(r3, true, env) == Run(r4, true, env);
    if !r4.stage.Finished? {
      var r5 := Step(r4, true, env);
      assert Run(r4, true, env) == r5;
    }
  }

  /**
   * A `file:///` input is handed to the converter as the path after the
   * scheme, with no download.
   */
  lemma LocalFileSkipsDownload(env: Collaborators)
    requires env.cookie.Verified? && Acceptable(env.query, env.conv)
    requires StartsWith(env.query["url"], LocalScheme)
    ensures var (r, calls) := Handle(true, env); var p := Parse(env.query, env.conv).value;
      && (forall c :: c in calls ==> !c.Download?)
      && (!env.conversion.SubmitFailed? ==>
            calls == [RateCheck, CookieCheck, Convert(LocalFile(env.query["url"][7..]), p)])
  {
    ReachesValidation(env);
    var p := Parse(env.query, env.conv).value;
    var path := env.query["url"][7..];
    LocalUrlValidated(env);
    LocalInputCalls(p, path, [RateCheck, CookieCheck], env);
    var calls := Handle(true, env).1;
    assert calls == Run(Request(Validated(p), [RateCheck, CookieCheck]), true, env).calls;
    if env.conversion.SubmitFailed? {
      assert calls == [RateCheck, CookieCheck];
    } else {
      assert calls == [RateCheck, CookieCheck, Convert(LocalFile(path), p)];
    }
    NoDownloadWithLocalInput(calls, p, path);
  }

  /** Neither record a local input can leave holds a download. */
  lemma NoDownloadWithLocalInput(calls: seq<Call>, p: Params, path: string)
    requires calls == [RateCheck, CookieCheck] || calls == [RateCheck, CookieCheck, Convert(LocalFile(path), p)]
    ensures forall c :: c in calls ==> !c.Download?
  {
  }

  /** An accepted `file:///` URL is routed to the path after the scheme. */
  lemma LocalUrlValidated(env: Collaborators)
    requires Acceptable(env.query, env.conv) && StartsWith(env.query["url"], LocalScheme)
    ensures Classify(Parse(env.query, env.conv).value.url) == Local(env.query["url"][7..])
  {
  }

  /** From validated parameters naming a local file: the calls made, by the worker pool's answer. */
  lemma LocalInputCalls(p: Params, path: string, before: seq<Call>, env: Collaborators)
    requires Classify(p.url) == Local(path)
    ensures Run(Request(Validated(p), before), true, env).calls
         == if env.conversion.SubmitFailed? then before else before + [Convert(LocalFile(path), p)]
  {
    var r3 := Request(Validated(p), before);
    var r4 := Step(r3, true, env);
    assert r4 == Request(Loaded(p, LocalFile(path)), before);
    assert Run(r3, true, env) == Run(r4, true, env) == Step(r4, true, env);
  }

  /** A URL outside the allowed origins gets 500 and the error page, with no download and no conversion. */
  lemma ForbiddenOriginNotDownloaded(env: Collaborators)
    requires env.cookie.Verified? && Acceptable(env.query, env.conv)
    requires Classify(env.query["url"]).Forbidden?
    ensures Handle(true, env) == (ErrorPage(500, DomainRestriction, map[], env.known), [RateCheck, CookieCheck])
  {
    ReachesValidation(env);
    FromValidation(Parse(env.query, env.conv).value, [RateCheck, CookieCheck], env);
  }

  /** A failed download gets 500 and the error page, and nothing is converted. */
  lemma FailedDownloadEndsRequest(env: Collaborators)
    requires env.cookie.Verified? && Acceptable(env.query, env.conv)
    requires Classify(env.query["url"]).Remote? && env.fetch.FetchFailed?
    ensures Handle(true, env)
         == (ErrorPage(500, FetchError, map[], env.known), [RateCheck, CookieCheck, Download(env.query["url"])])
  {
    ReachesValidation(env);
    var p := Parse(env.query, env.conv).value;
    assert p.url == env.query["url"];
    FromValidation(p, [RateCheck, CookieCheck], env);
    assert Run(Request(Validated(p), [RateCheck, CookieCheck]), true, env)
        == Request(Finished(ErrorPage(500, FetchError, map[], env.known)), [RateCheck, CookieCheck, Download(p.url)]);
  }

  /** A worker-pool refusal or a conversion that raises gets 500 and the error page. */
  lemma FailedConversionEndsRequest(env: Collaborators)
    requires env.cookie.Verified? && Acceptable(env.query, env.conv)
    requires Classify(env.query["url"]).Local? || (Classify(env.query["url"]).Remote? && env.fetch.Fetched?)
    requires env.conversion.SubmitFailed? || env.conversion.ConversionFailed?
    ensures var (r, _) := Handle(true, env);
      r.status == 500 && r.body.Page? && r.body.template == "error.html"
  {
    ReachesValidation(env);
    FromValidation(Parse(env.query, env.conv).value, [RateCheck, CookieCheck], env);
  }

  /**
   * The file is delivered (a body that is not a template page) exactly when
   * every stage succeeded: admitted, verified, acceptable arguments, a local or
   * successfully downloaded input, and a conversion that produced output; it
   * then carries the output behind a byte-order mark and is named by the `o`
   * argument, or `comments.ass` without one.
   */
  lemma DeliveredExactlyWhenAllSucceed(admitted: bool, env: Collaborators)
    ensures var (r, _) := Handle(admitted, env);
      r.body.Artifact? <==>
        && admitted
        && env.cookie.Verified?
        && Acceptable(env.query, env.conv)
        && !Classify(env.query["url"]).Forbidden?
        && (Classify(env.query["url"]).Remote? ==> env.fetch.Fetched?)
        && env.conversion.Converted?
    ensures var (r, _) := Handle(admitted, env);
      r.body.Artifact? ==>
        && r.status == 200
        && StripBom(r.body.bytes) == Some(env.conversion.output)
        && "Content-Disposition" in r.headers
        && AttachmentName(r.headers["Content-Disposition"])
           == Some(if "o" in env.query then env.query["o"] else DefaultOutputFilename)
  {
    if !admitted {
      RateDenialEndsRequest(env);
    } else if env.cookie.Refused? {
      CookieRefusalEndsRequest(env);
    } else if !Acceptable(env.query, env.conv) {
      InvalidArgumentsEndRequest(env);
    } else {
      ReachesValidation(env);
      FromValidation(Parse(env.query, env.conv).value, [RateCheck, CookieCheck], env);
    }
  }

  /**
   * Every response carries 200, 400, 429 or 500, or the status the cookie
   * verifier answered with; 429 only ever answers a denied call, and 400 only
   * a query that is not acceptable.
   */
  lemma ResponseStatuses(admitted: bool, env: Collaborators)
    ensures var (r, _) := Handle(admitted, env);
      || r.status in {200, 400, 429, 500}
      || (env.cookie.Refused? && r.status == env.cookie.code)
    ensures var (r, _) := Handle(admitted, env);
      r.status == 429 ==> !admitted || (env.cookie.Refused? && env.cookie.code == 429)
    ensures var (r, _) := Handle(admitted, env);
      r.status == 400 ==> admitted && ((env.cookie.Refused? && env.cookie.code == 400)
                                       || (env.cookie.Verified? && !Acceptable(env.query, env.conv)))
  {
    if !admitted {
      RateDenialEndsRequest(env);
    } else if env.cookie.Refused? {
      CookieRefusalEndsRequest(env);
    } else if !Acceptable(env.query, env.conv) {
      InvalidArgumentsEndRequest(env);
    } else {
      ReachesValidation(env);
      FromValidation(Parse(env.query, env.conv).value, [RateCheck, CookieCheck], env);
    }
  }

  /**
   * Serving a request on the shared limiter: the limiter's list changes as one
   * admission decides, and the response is the one that verdict leads to.
   */
  method Get(limiter: RateLimit.RateLimiter, now: int, ip: string, env: Collaborators)
      returns (response: Response, calls: seq<Call>)
    modifies limiter
    ensures var d := RateLimit.Admission(old(limiter.visits), now, ip);
      limiter.visits == d.visits && (response, calls) == Handle(d.admitted, env)
  {
    var admitted := limiter.Admit(now, ip);
    var outcome := Handle(admitted, env);
    response, calls := outcome.0, outcome.1;
  }
}
