/**
 * The webhook endpoint GitLab calls on merge-request events: classify the
 * decoded request body, then do nothing, send a "merge objects only" mail, or
 * build the test matrix and dispatch the CiviCARROT workflow on GitHub, mailing
 * the submitter when GitHub answers with an error. Access to the endpoint
 * requires the configured GitLab token.
 */
module WorkflowController {
  import opened Wrappers
  import opened Text
  import opened Json
  import opened Remote
  import MB = MatrixBuilder

  // ---------------------------------------------------------------------------
  // Reading the request body

  /**
   * `$a[$key]` on a decoded value that is not a string: a missing key, or a
   * scalar or null in place of the array, gives null (with a warning). The same
   * value is what `empty()`, `isset()` and `??` see, which never raise. A plain
   * read of a string with a non-numeric key raises instead; `Classify` and
   * `Matrix` say where that happens.
   */
  function Field(j: Json, key: string): Json {
    if j.JObj? then Get(j.members, key).GetOr(JNull) else JNull
  }

  /** `!empty($body['user']['email']) ? $body['user']['email'] : NULL` */
  function Email(body: Json): (r: Option<Json>)
    ensures r.Some? ==> !Empty(r.value) && r.value == Field(Field(body, "user"), "email")
    ensures r.None? ==> Empty(Field(Field(body, "user"), "email"))
  {
    var e := Field(Field(body, "user"), "email");
    if Empty(e) then None else Some(e)
  }

  const MergeRequest := JStr("merge_request")

  function ObjectKind(body: Json): Json { Field(body, "object_kind") }
  function EventType(body: Json): Json { Field(body, "event_type") }
  function Attributes(body: Json): Json { Field(body, "object_attributes") }

  /** The four exclusive branches of `run`. */
  datatype Branch =
    | EmptyBody           // nothing usable was posted
    | Closed              // a merge request that is no longer open: nothing to do
    | WrongEvent          // not a merge-request event: tell the submitter
    | OpenMergeRequest    // build the matrix and dispatch the workflow
    | Unreadable(fault: Fault)  // a condition reads a key of a string, which raises

  /**
   * The if/elseif chain of `run`, with PHP's strict comparisons and
   * short-circuits. A non-empty string body raises at its first read of
   * `object_kind`, and a string `object_attributes` raises when its `state` is
   * read. In every other case each read gives `Field`'s value.
   */
  function Classify(body: Json): Branch {
    if Empty(body) then EmptyBody
    else if body.JStr? then Unreadable(StringOffset("object_kind"))
    else if ObjectKind(body) == MergeRequest && EventType(body) == MergeRequest
      && Attributes(body).JStr? then Unreadable(StringOffset("state"))
    else if ObjectKind(body) == MergeRequest && EventType(body) == MergeRequest
      && Field(Attributes(body), "state") != JStr("opened") then Closed
    else if ObjectKind(body) != MergeRequest || EventType(body) != MergeRequest then WrongEvent
    else OpenMergeRequest
  }

  /** Exactly the open merge-request events are dispatched. */
  lemma ClassifyOpenMergeRequest(body: Json)
    ensures Classify(body) == OpenMergeRequest <==>
      !Empty(body) && ObjectKind(body) == MergeRequest && EventType(body) == MergeRequest
      && Field(Attributes(body), "state") == JStr("opened")
  {
  }

  /** Every non-empty body that is not a string nor a merge-request event is answered with the "merge objects only" branch. */
  lemma ClassifyWrongEvent(body: Json)
    ensures Classify(body) == WrongEvent <==>
      !Empty(body) && !body.JStr? && (ObjectKind(body) != MergeRequest || EventType(body) != MergeRequest)
  {
  }

  /** The conditions raise exactly for a non-empty string body, or a merge-request event whose `object_attributes` is a string. */
  lemma ClassifyUnreadable(body: Json)
    ensures Classify(body).Unreadable? <==>
      !Empty(body) && (body.JStr? || (ObjectKind(body) == MergeRequest && EventType(body) == MergeRequest && Attributes(body).JStr?))
  {
  }

  // ---------------------------------------------------------------------------
  // Effects

  datatype Level = Debug | Info | Warning | Error

  /** What `run` and `checkAccess` do to the outside world, in order. */
  datatype Effect =
    | Mail(key: string, to: Json, params: seq<Member>)
    | Dispatch(url: string, body: string)
    | Log(level: Level, message: string)

  const MergeObjectsOnly := "webformgithubbridge_merge_objects_only"
  const TriggerFailure := "webformgithubbridge_trigger_failure"
  const DispatchUrl := "https://api.github.com/repos/semperit/CiviCARROT/actions/workflows/webform_civicrm.yml/dispatches"

  /** The answer of `curl_exec` to the dispatch request. */
  datatype CurlResult = CurlFailed(reason: string) | CurlAnswered(text: string)

  /** The endpoint's answer: `{"status":"Ok"}`, unless PHP raised an error first. */
  datatype Response = Ok | Crashed(fault: Fault)

  /** The mails among the effects, in order. */
  function MailsOf(es: seq<Effect>): seq<Effect> {
    if es == [] then [] else (if es[0].Mail? then [es[0]] else []) + MailsOf(es[1..])
  }

  /** The dispatches among the effects, in order. */
  function DispatchesOf(es: seq<Effect>): seq<Effect> {
    if es == [] then [] else (if es[0].Dispatch? then [es[0]] else []) + DispatchesOf(es[1..])
  }

  lemma {:induction false} MailsOfAppend(a: seq<Effect>, b: seq<Effect>)
    ensures MailsOf(a + b) == MailsOf(a) + MailsOf(b)
  {
    if a != [] {
      assert (a + b)[0] == a[0] && (a + b)[1..] == a[1..] + b;
      MailsOfAppend(a[1..], b);
    } else {
      assert a + b == b;
    }
  }

  lemma {:induction false} DispatchesOfAppend(a: seq<Effect>, b: seq<Effect>)
    ensures DispatchesOf(a + b) == DispatchesOf(a) + DispatchesOf(b)
  {
    if a != [] {
      assert (a + b)[0] == a[0] && (a + b)[1..] == a[1..] + b;
      DispatchesOfAppend(a[1..], b);
    } else {
      assert a + b == b;
    }
  }

  // ---------------------------------------------------------------------------
  // `run` as a function of the request

  /** The request body `run` posts to GitHub: the workflow's ref and its two inputs. */
  function DispatchBody(matrix: string, prUrl: Json): Json {
    JObj([Member("ref", JStr("main")),
          Member("inputs", JObj([Member("matrix", JStr(matrix)), Member("prurl", prUrl)]))])
  }

  /** A value passed to a `string` parameter: scalars are converted, null and arrays raise. */
  function AsString(j: Json, parameter: string): Result<string> {
    match j
    case JStr(s) => Success(s)
    case JInt(i) => Success(IntToString(i))
    case JBool(b) => Success(if b then "1" else "")
    case _ => Failure(ArgumentType(parameter))
  }

  /** `assembleMatrix($body['project']['git_http_url'], $body['object_attributes']['source_branch'])` with a new builder. */
  function Matrix(body: Json, world: World): Result<string> {
    if Field(body, "project").JStr? then Failure(StringOffset("git_http_url"))
    else
    var repo := AsString(Field(Field(body, "project"), "git_http_url"), "repourl");
    var branch := AsString(Field(Attributes(body), "source_branch"), "branch");
    if repo.Failure? then Failure(repo.error)
    else if branch.Failure? then Failure(branch.error)
    else MB.BuildSpec(repo.value, branch.value, EmptyCache, world).result
  }

  /** `$response_str` after the request: the answer's text, or "" when the request failed. */
  function ResponseText(reply: CurlResult): string {
    if reply.CurlFailed? then "" else reply.text
  }

  /** What `run` answers and the effects it has, in order. */
  datatype Run = Run(response: Response, effects: seq<Effect>)

  /** The dispatch branch once the matrix is built: post, log the curl error, report a non-empty answer. */
  function Report(matrix: string, body: Json, ci: string -> CurlResult): seq<Effect> {
    var json := Encode(DispatchBody(matrix, Field(Attributes(body), "url")));
    var reply := ci(json);
    var text := ResponseText(reply);
    [Dispatch(DispatchUrl, json)]
    + (if reply.CurlFailed? then [Log(Debug, "curlerr: " + reply.reason)] else [])
    + (if PhpEmpty(text) then []
       else [Log(Error, text)] + (if Email(body).Some? then [Mail(TriggerFailure, Email(body).value, [Member("result", JStr(text))])] else []))
  }

  /** `run` with the logger call of the empty branch as PSR-3 names it (`warning`). */
  function Respond(body: Json, world: World, ci: string -> CurlResult): Run {
    match Classify(body)
    case EmptyBody => Run(Ok, [Log(Warning, "Empty request body?")])
    case Closed => Run(Ok, [])
    case WrongEvent =>
      Run(Ok, [Log(Info, "Only open merge_request events are allowed.")]
        + (if Email(body).Some? then [Mail(MergeObjectsOnly, Email(body).value, [])] else []))
    case OpenMergeRequest =>
      var matrix := Matrix(body, world);
      if matrix.Failure? then Run(Crashed(matrix.error), [])
      else Run(Ok, Report(matrix.value, body, ci))
    case Unreadable(fault) => Run(Crashed(fault), [])
  }

  /** An empty or undecodable body: no mail, no dispatch, and the answer is Ok. */
  lemma EmptyBodyAnswersOk(body: Json, world: World, ci: string -> CurlResult)
    requires Empty(body)
    ensures Respond(body, world, ci).response == Ok
    ensures MailsOf(Respond(body, world, ci).effects) == []
    ensures DispatchesOf(Respond(body, world, ci).effects) == []
  {
    assert MailsOf([Log(Warning, "Empty request body?")]) == [];
  }

  /** A merge request that was merged or closed: nothing at all happens, and the answer is Ok. */
  lemma ClosedMergeRequestIsQuiet(body: Json, world: World, ci: string -> CurlResult)
    requires !Empty(body) && ObjectKind(body) == MergeRequest && EventType(body) == MergeRequest
    requires !Attributes(body).JStr? && Field(Attributes(body), "state") != JStr("opened")
    ensures Respond(body, world, ci) == Run(Ok, [])
  {
  }

  /** Any other event: no dispatch, and one "merge objects only" mail exactly when the submitter has an email. */
  lemma WrongEventNotifies(body: Json, world: World, ci: string -> CurlResult)
    requires !Empty(body) && !body.JStr? && (ObjectKind(body) != MergeRequest || EventType(body) != MergeRequest)
    ensures Respond(body, world, ci).response == Ok
    ensures DispatchesOf(Respond(body, world, ci).effects) == []
    ensures MailsOf(Respond(body, world, ci).effects) ==
      if Email(body).Some? then [Mail(MergeObjectsOnly, Email(body).value, [])] else []
  {
    var log := [Log(Info, "Only open merge_request events are allowed.")];
    var mail := if Email(body).Some? then [Mail(MergeObjectsOnly, Email(body).value, [])] else [];
    MailsOfAppend(log, mail);
    DispatchesOfAppend(log, mail);
    assert MailsOf(log) == [] && DispatchesOf(log) == [];
    assert DispatchesOf(mail) == [] by {
      if mail != [] { assert DispatchesOf(mail) == [] + DispatchesOf([]); }
    }
    assert MailsOf(mail) == mail by {
      if mail != [] { assert MailsOf(mail) == mail + MailsOf([]); }
    }
  }

  /** The effects of the dispatch branch, with the answer of the CI endpoint and the submitter's email given. */
  lemma {:induction false} ReportParts(json: string, reply: CurlResult, email: Option<Json>)
    ensures var text := ResponseText(reply);
      var effects := [Dispatch(DispatchUrl, json)]
        + (if reply.CurlFailed? then [Log(Debug, "curlerr: " + reply.reason)] else [])
        + (if PhpEmpty(text) then []
           else [Log(Error, text)] + (if email.Some? then [Mail(TriggerFailure, email.value, [Member("result", JStr(text))])] else []));
      && DispatchesOf(effects) == [Dispatch(DispatchUrl, json)]
      && MailsOf(effects) ==
        if !PhpEmpty(text) && email.Some? then [Mail(TriggerFailure, email.value, [Member("result", JStr(text))])] else []
  {
    var text := ResponseText(reply);
    var post: seq<Effect> := [Dispatch(DispatchUrl, json)];
    var debug: seq<Effect> := if reply.CurlFailed? then [Log(Debug, "curlerr: " + reply.reason)] else [];
    var mail: seq<Effect> := if email.Some? then [Mail(TriggerFailure, email.value, [Member("result", JStr(text))])] else [];
    var error: seq<Effect> := if PhpEmpty(text) then [] else [Log(Error, text)] + mail;
    MailsOfAppend(post + debug, error);
    MailsOfAppend(post, debug);
    DispatchesOfAppend(post + debug, error);
    DispatchesOfAppend(post, debug);
    assert MailsOf(post) == [] + MailsOf([]);
    assert DispatchesOf(post) == post + DispatchesOf([]);
    assert MailsOf(debug) == [] && DispatchesOf(debug) == [] by {
      if debug != [] { assert MailsOf(debug) == [] + MailsOf([]) && DispatchesOf(debug) == [] + DispatchesOf([]); }
    }
    if !PhpEmpty(text) {
      MailsOfAppend([Log(Error, text)], mail);
      DispatchesOfAppend([Log(Error, text)], mail);
      assert MailsOf([Log(Error, text)]) == [] + MailsOf([]);
      assert DispatchesOf([Log(Error, text)]) == [] + DispatchesOf([]);
      if mail != [] {
        assert MailsOf(mail) == mail + MailsOf([]);
        assert DispatchesOf(mail) == [] + DispatchesOf([]);
      }
    }
  }

  /** The effects of the dispatch branch: one dispatch of the built matrix, and the failure mail only for a non-empty answer to a submitter with an email. */
  lemma ReportEffects(matrix: string, body: Json, ci: string -> CurlResult)
    ensures var json := Encode(DispatchBody(matrix, Field(Attributes(body), "url")));
      var text := ResponseText(ci(json));
      && DispatchesOf(Report(matrix, body, ci)) == [Dispatch(DispatchUrl, json)]
      && MailsOf(Report(matrix, body, ci)) ==
        if !PhpEmpty(text) && Email(body).Some? then [Mail(TriggerFailure, Email(body).value, [Member("result", JStr(text))])] else []
  {
    var json := Encode(DispatchBody(matrix, Field(Attributes(body), "url")));
    ReportParts(json, ci(json), Email(body));
  }

  /**
   * An open merge request whose matrix builds: the workflow is dispatched once
   * with `{"ref":"main","inputs":{"matrix":…,"prurl":…}}`, and the answer is Ok.
   */
  lemma OpenMergeRequestDispatches(body: Json, world: World, ci: string -> CurlResult)
    requires Classify(body) == OpenMergeRequest && Matrix(body, world).Success?
    ensures var json := Encode(DispatchBody(Matrix(body, world).value, Field(Attributes(body), "url")));
      var text := ResponseText(ci(json));
      && Respond(body, world, ci).response == Ok
      && DispatchesOf(Respond(body, world, ci).effects) == [Dispatch(DispatchUrl, json)]
      && MailsOf(Respond(body, world, ci).effects) ==
        if !PhpEmpty(text) && Email(body).Some? then [Mail(TriggerFailure, Email(body).value, [Member("result", JStr(text))])] else []
  {
    ReportEffects(Matrix(body, world).value, body, ci);
  }

  /** Whatever is posted, a run sends at most one mail and dispatches at most once. */
  lemma AtMostOneMailAndDispatch(body: Json, world: World, ci: string -> CurlResult)
    ensures |MailsOf(Respond(body, world, ci).effects)| <= 1
    ensures |DispatchesOf(Respond(body, world, ci).effects)| <= 1
  {
    match Classify(body)
    case EmptyBody => EmptyBodyAnswersOk(body, world, ci);
    case Closed =>
    case WrongEvent => WrongEventNotifies(body, world, ci);
    case OpenMergeRequest =>
      if Matrix(body, world).Success? {
        OpenMergeRequestDispatches(body, world, ci);
      }
    case Unreadable(_) =>
  }

  /**
   * The answer is Ok except when a condition reads a key of a string, or the
   * matrix of an open merge request cannot be built.
   */
  lemma AnswerIsOk(body: Json, world: World, ci: string -> CurlResult)
    ensures Respond(body, world, ci).response == Ok <==>
      !Classify(body).Unreadable? && (Classify(body) != OpenMergeRequest || Matrix(body, world).Success?)
  {
  }

  /** A body that decodes to a string raises at the first condition, before any effect. */
  lemma StringBodyCrashes(world: World, ci: string -> CurlResult)
    ensures Respond(JStr("hello"), world, ci) == Run(Crashed(StringOffset("object_kind")), [])
  {
  }

  /** A merge-request event whose `object_attributes` is a string raises when its `state` is read. */
  lemma StringAttributesCrash(world: World, ci: string -> CurlResult)
    ensures var body := JObj([Member("object_kind", MergeRequest), Member("event_type", MergeRequest),
                              Member("object_attributes", JStr("x"))]);
      Respond(body, world, ci) == Run(Crashed(StringOffset("state")), [])
  {
    var ms := [Member("object_kind", MergeRequest), Member("event_type", MergeRequest),
               Member("object_attributes", JStr("x"))];
    assert ms[1..][1..] == [Member("object_attributes", JStr("x"))];
    assert |"object_kind"| != |"event_type"| && |"object_kind"| != |"object_attributes"|;
    assert |"event_type"| != |"object_attributes"|;
    assert ObjectKind(JObj(ms)) == MergeRequest;
    assert Get(ms, "event_type") == Get(ms[1..], "event_type");
    assert EventType(JObj(ms)) == MergeRequest;
    assert Get(ms, "object_attributes") == Get(ms[1..], "object_attributes") == Get(ms[1..][1..], "object_attributes");
    assert Attributes(JObj(ms)) == JStr("x");
  }

  /** An open merge request whose `project` is a string raises when `git_http_url` is read: nothing is dispatched. */
  lemma StringProjectCrashes(body: Json, world: World, ci: string -> CurlResult)
    requires Classify(body) == OpenMergeRequest && Field(body, "project").JStr?
    ensures Respond(body, world, ci) == Run(Crashed(StringOffset("git_http_url")), [])
  {
  }

  // ---------------------------------------------------------------------------
  // The code as written

  /**
   * `run` as written: the empty branch calls `$this->logger->warn`, a method
   * PSR-3 loggers do not have, so an empty body raises instead of answering Ok.
   */
  function RespondAsWritten(body: Json, world: World, ci: string -> CurlResult): Run {
    if Classify(body) == EmptyBody then Run(Crashed(UndefinedMethod("warn")), [])
    else Respond(body, world, ci)
  }

  /** An empty body shows the difference: as written it raises, where the comment and the other branches answer Ok. */
  lemma EmptyBodyAsWrittenCrashes(world: World, ci: string -> CurlResult)
    ensures RespondAsWritten(JNull, world, ci).response == Crashed(UndefinedMethod("warn"))
    ensures Respond(JNull, world, ci).response == Ok
  {
  }

  // ---------------------------------------------------------------------------
  // Access

  /** `checkAccess`: the X-Gitlab-Token header must be non-empty and equal the configured token. */
  predicate Allowed(secret: Option<string>, token: Option<string>) {
    secret.Some? && !PhpEmpty(secret.value) && token == secret
  }

  /** Without a usable configured token nobody is let in. */
  lemma UnconfiguredTokenForbids(secret: Option<string>, token: Option<string>)
    requires token.None? || PhpEmpty(token.value)
    ensures !Allowed(secret, token)
  {
  }

  /** Only the configured token is let in, and it always is when usable. */
  lemma OnlyTheTokenIsAllowed(secret: Option<string>, token: Option<string>)
    ensures Allowed(secret, token) ==> secret == token
    ensures token.Some? && !PhpEmpty(token.value) ==> Allowed(token, token)
  {
  }

  datatype AccessResult = Allow | Forbid

  // ---------------------------------------------------------------------------
  // The controller

  class WorkflowController {
    /** The `webformgithubbridge.gitlabtoken` setting. */
    const gitlabToken: Option<string>
    /** What the builders see of the outside world. */
    const world: World
    /** GitHub's answer to a dispatch request with a given body. */
    const ci: string -> CurlResult
    /** Everything logged, mailed and dispatched so far. */
    var effects: seq<Effect>

    constructor (gitlabToken: Option<string>, world: World, ci: string -> CurlResult)
      ensures this.gitlabToken == gitlabToken && this.world == world && this.ci == ci
      ensures effects == []
    {
      this.gitlabToken := gitlabToken;
      this.world := world;
      this.ci := ci;
      effects := [];
    }

    /** `run` */
    method Run(body: Json) returns (response: Response)
      modifies this
      ensures response == Respond(body, world, ci).response
      ensures effects == old(effects) + Respond(body, world, ci).effects
    {
      var email := Email(body);
      ghost var branch := Classify(body);
      if Empty(body) {
        effects := effects + [Log(Warning, "Empty request body?")];
      } else if body.JStr? {
        assert branch == Unreadable(StringOffset("object_kind"));
        return Crashed(StringOffset("object_kind"));
      } else if ObjectKind(body) == MergeRequest && EventType(body) == MergeRequest && Attributes(body).JStr? {
        assert branch == Unreadable(StringOffset("state"));
        return Crashed(StringOffset("state"));
      } else if ObjectKind(body) == MergeRequest && EventType(body) == MergeRequest
        && Field(Attributes(body), "state") != JStr("opened") {
      } else if ObjectKind(body) != MergeRequest || EventType(body) != MergeRequest {
        effects := effects + [Log(Info, "Only open merge_request events are allowed.")];
        if email.Some? {
          effects := effects + [Mail(MergeObjectsOnly, email.value, [])];
        }
      } else {
        assert branch == OpenMergeRequest;
        var matrix := AssembleMatrix(body);
        if matrix.Failure? {
          return Crashed(matrix.error);
        }
        Trigger(matrix.value, body, email);
      }
      response := Ok;
    }

    /** The dispatch branch once the matrix is built: post it, then report a failed or answered request. */
    method Trigger(matrix: string, body: Json, email: Option<Json>)
      requires email == Email(body)
      modifies this
      ensures effects == old(effects) + Report(matrix, body, ci)
    {
      var json := Encode(DispatchBody(matrix, Field(Attributes(body), "url")));
      effects := effects + [Dispatch(DispatchUrl, json)];
      var responseText := "";
      var reply := ci(json);
      if reply.CurlFailed? {
        effects := effects + [Log(Debug, "curlerr: " + reply.reason)];
      } else {
        responseText := responseText + reply.text;
      }
      assert responseText == ResponseText(reply);
      ghost var sent := effects;
      if !PhpEmpty(responseText) {
        effects := effects + [Log(Error, responseText)];
        if email.Some? {
          effects := effects + [Mail(TriggerFailure, email.value, [Member("result", JStr(responseText))])];
        }
        assert effects == sent + [Log(Error, responseText)]
          + (if email.Some? then [Mail(TriggerFailure, email.value, [Member("result", JStr(responseText))])] else []);
      }
    }

    /** `assembleMatrix`: a new builder for the merge request's repository and source branch. */
    method AssembleMatrix(body: Json) returns (r: Result<string>)
      ensures r == Matrix(body, world)
    {
      if Field(body, "project").JStr? {
        return Failure(StringOffset("git_http_url"));
      }
      var repo := AsString(Field(Field(body, "project"), "git_http_url"), "repourl");
      var branch := AsString(Field(Attributes(body), "source_branch"), "branch");
      if repo.Failure? {
        return Failure(repo.error);
      }
      if branch.Failure? {
        return Failure(branch.error);
      }
      var builder := new MB.MatrixBuilder(repo.value, branch.value, world);
      r := builder.Build();
    }

    /** `checkAccess`: a refused token is logged as a warning. */
    method CheckAccess(secret: Option<string>) returns (r: AccessResult)
      modifies this
      ensures r == Allow <==> Allowed(secret, gitlabToken)
      ensures effects == old(effects) + (if r == Allow then [] else [Log(Warning, "Invalid token: " + secret.GetOr(""))])
    {
      if secret.Some? && !PhpEmpty(secret.value) && secret == gitlabToken {
        return Allow;
      }
      effects := effects + [Log(Warning, "Invalid token: " + secret.GetOr(""))];
      r := Forbid;
    }
  }
}
