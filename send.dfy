/** Sending a bug report to the bug service, in the middleware package
    (`SendToBugfixes`, `System.SendToBugfixes`) and in the root package
    (`sendToBugfixes`). The middleware parses the stack dump it is given
    with `bugParse`; the root package's parse is an input. The network is
    reduced to the errors it can return, and the outcome says what request
    was made and what diagnostic reached standard error. */
module BugSend {
  import opened Outcomes
  import opened Text
  import opened Recoverer

  const KeyVariable: string := "BUGFIXES_AGENT_KEY"
  const SecretVariable: string := "BUGFIXES_AGENT_SECRET"
  const ServerVariable: string := "BUGFIXES_SERVER"
  /** The middleware's default server; "/bug" is appended to it. */
  const DefaultServer: string := "https://api.bugfix.es"
  /** The root package's default endpoint, used as it stands. */
  const RootDefaultEndpoint: string := "https://api.bugfix.es/bug"
  /** The run-time panic of a field access through a nil pointer. */
  const NilDereference: string := "invalid memory address or nil pointer dereference"

  /** A POST to the bug service: the endpoint, the request headers under
      their canonical names, and the record sent as the JSON body. */
  datatype BugRequest<B> = BugRequest(url: string, headers: map<string, string>, body: B)

  /** What a send amounts to: nothing (no credentials), a diagnostic on
      standard error with nothing sent, or a request made, with the
      diagnostic of a failed send or close. */
  datatype Delivery<B> =
    | Skipped
    | Abandoned(message: string)
    | Attempted(request: BugRequest<B>, diagnostic: Option<string>)

  /** The three `Header.Set` calls; `Set` canonicalises "Content-type",
      "X-API-KEY" and "X-API-SECRET" to the names used here. */
  function RequestHeaders(key: string, secret: string): (h: map<string, string>)
    ensures h.Keys == {"Content-Type", "X-Api-Key", "X-Api-Secret"}
    ensures h["Content-Type"] == "application/json"
    ensures h["X-Api-Key"] == key && h["X-Api-Secret"] == secret
  {
    map["Content-Type" := "application/json", "X-Api-Key" := key, "X-Api-Secret" := secret]
  }

  /** The middleware's endpoint: BUGFIXES_SERVER, or the default server,
      followed by "/bug". */
  function Endpoint(env: Env): string
  {
    var server := Getenv(env, ServerVariable);
    (if server != "" then server else DefaultServer) + "/bug"
  }

  /** The root package's endpoint: BUGFIXES_SERVER as it stands, or the
      default endpoint. */
  function RootEndpoint(env: Env): string
  {
    var server := Getenv(env, ServerVariable);
    if server != "" then server else RootDefaultEndpoint
  }

  /** Both packages post to the same default endpoint, but a configured
      server is used as a base by the middleware and as the whole endpoint
      by the root package. */
  lemma EndpointsDiffer(env: Env)
    ensures Getenv(env, ServerVariable) == "" ==> Endpoint(env) == RootEndpoint(env) == RootDefaultEndpoint
    ensures Getenv(env, ServerVariable) != "" ==> Endpoint(env) == RootEndpoint(env) + "/bug"
    ensures HasSuffix(Endpoint(env), "/bug")
  {
    var e := Endpoint(env);
    var base := if Getenv(env, ServerVariable) != "" then Getenv(env, ServerVariable) else DefaultServer;
    assert e[|e| - 4..] == (base + "/bug")[|base|..];
  }

  /** `System.SendToBugfixes` exactly as written, on the dump `debug.Stack()`
      gives it: `bugParse` takes the dump apart, then the record is sent. */
  function SystemSendAsWritten(agentID: string, secret: string, env: Env, debugStack: string, isTTY: bool,
                               requestError: Option<string>, sendError: Option<string>, closeError: Option<string>): Run<Delivery<BugFixesSend>>
  {
    SendParsedAsWritten(agentID, secret, env, BugReport(debugStack, isTTY), requestError, sendError, closeError)
  }

  /** `System.SendToBugfixes` with the request error reported as the code
      intends. */
  function SystemSend(agentID: string, secret: string, env: Env, debugStack: string, isTTY: bool,
                      requestError: Option<string>, sendError: Option<string>, closeError: Option<string>): Run<Delivery<BugFixesSend>>
  {
    SendParsed(agentID, secret, env, BugReport(debugStack, isTTY), requestError, sendError, closeError)
  }

  /** The rest of `System.SendToBugfixes` as written, once `bugParse` has run:
      a parse error is reported; the error of `http.NewRequest` is checked
      only after the nil request's headers are set, so a request that cannot
      be built panics instead of being reported. */
  function SendParsedAsWritten(agentID: string, secret: string, env: Env, parsed: Run<BugParsed>,
                               requestError: Option<string>, sendError: Option<string>, closeError: Option<string>): Run<Delivery<BugFixesSend>>
  {
    if parsed.Panics? then Panics(parsed.reason)
    else if parsed.value.err.Some? then Returns(Abandoned("bugfixes: failed to parse bug: " + parsed.value.err.value))
    else if requestError.Some? then Panics(NilDereference)
    else Returns(Posted(BugRequest(Endpoint(env), RequestHeaders(agentID, secret), parsed.value.bug), sendError, closeError))
  }

  /** The rest of `System.SendToBugfixes` with the request error reported. */
  function SendParsed(agentID: string, secret: string, env: Env, parsed: Run<BugParsed>,
                      requestError: Option<string>, sendError: Option<string>, closeError: Option<string>): Run<Delivery<BugFixesSend>>
  {
    if parsed.Panics? then Panics(parsed.reason)
    else if parsed.value.err.Some? then Returns(Abandoned("bugfixes: failed to parse bug: " + parsed.value.err.value))
    else if requestError.Some? then Returns(Abandoned("bugfixes: failed to new request: " + requestError.value))
    else Returns(Posted(BugRequest(Endpoint(env), RequestHeaders(agentID, secret), parsed.value.bug), sendError, closeError))
  }

  /** The end of the send: the request is made; a send error is reported,
      and only a successful send has its body closed. */
  function Posted<B>(request: BugRequest<B>, sendError: Option<string>, closeError: Option<string>): Delivery<B>
  {
    if sendError.Some? then Attempted(request, Some("bugfixes: failed to send bug: " + sendError.value))
    else if closeError.Some? then Attempted(request, Some("bugfixes: failed to close body: " + closeError.value))
    else Attempted(request, None)
  }

  /** Whatever `bugParse` returned, the code as written panics on every
      request that cannot be built, where the guarded version reports it; on
      every other input the two agree. */
  lemma RequestErrorPanicsAsWritten(agentID: string, secret: string, env: Env, parsed: Run<BugParsed>,
                                    requestError: Option<string>, sendError: Option<string>, closeError: Option<string>)
    ensures parsed.Returns? && parsed.value.err.None? && requestError.Some? ==>
              && SendParsedAsWritten(agentID, secret, env, parsed, requestError, sendError, closeError) == Panics(NilDereference)
              && SendParsed(agentID, secret, env, parsed, requestError, sendError, closeError)
                 == Returns(Abandoned("bugfixes: failed to new request: " + requestError.value))
    ensures !(parsed.Returns? && parsed.value.err.None? && requestError.Some?) ==>
              SendParsedAsWritten(agentID, secret, env, parsed, requestError, sendError, closeError)
              == SendParsed(agentID, secret, env, parsed, requestError, sendError, closeError)
  {
  }

  /** The guarded send, whatever `bugParse` returned: a panic propagates, a
      parse error is reported and nothing is sent; otherwise the record is
      posted to the endpoint with the agent's credentials, and a diagnostic
      is written exactly when sending or closing failed. */
  lemma SystemSendOutcomes(agentID: string, secret: string, env: Env, parsed: Run<BugParsed>,
                           requestError: Option<string>, sendError: Option<string>, closeError: Option<string>)
    ensures var d := SendParsed(agentID, secret, env, parsed, requestError, sendError, closeError);
              && (d.Panics? <==> parsed.Panics?)
              && (d.Returns? ==> !d.value.Skipped?)
              && (d.Returns? && d.value.Abandoned? <==> parsed.Returns? && (parsed.value.err.Some? || requestError.Some?))
    ensures var d := SendParsed(agentID, secret, env, parsed, requestError, sendError, closeError);
              d.Returns? && d.value.Attempted? ==>
                && d.value.request.url == Endpoint(env)
                && d.value.request.headers["X-Api-Key"] == agentID
                && d.value.request.headers["X-Api-Secret"] == secret
                && d.value.request.body == parsed.value.bug
                && (d.value.diagnostic.None? <==> sendError.None? && closeError.None?)
    ensures var d := SendParsed(agentID, secret, env, parsed, requestError, sendError, closeError);
              parsed.Returns? && parsed.value.err.Some? ==>
                d == Returns(Abandoned("bugfixes: failed to parse bug: " + parsed.value.err.value))
  {
  }

  /** The middleware's `SendToBugfixes`: nothing happens unless both
      credentials are set in the environment; then `System.SendToBugfixes`
      runs as written. */
  function SendToBugfixes(env: Env, debugStack: string, isTTY: bool, requestError: Option<string>,
                          sendError: Option<string>, closeError: Option<string>): Run<Delivery<BugFixesSend>>
  {
    var key := Getenv(env, KeyVariable);
    var secret := Getenv(env, SecretVariable);
    if key == "" || secret == "" then Returns(Skipped)
    else SystemSendAsWritten(key, secret, env, debugStack, isTTY, requestError, sendError, closeError)
  }

  /** A send is skipped exactly when a credential is missing; with both set
      it panics exactly when `bugParse` panicked on the dump or the request
      could not be built, a dump `bugParse` rejects is reported, and a
      request that is made carries the environment's credentials and the
      record `bugParse` built. */
  lemma SendNeedsCredentials(env: Env, debugStack: string, isTTY: bool, requestError: Option<string>,
                             sendError: Option<string>, closeError: Option<string>)
    ensures SendToBugfixes(env, debugStack, isTTY, requestError, sendError, closeError) == Returns(Skipped) <==>
              Getenv(env, KeyVariable) == "" || Getenv(env, SecretVariable) == ""
    ensures var parsed := BugReport(debugStack, isTTY);
            Getenv(env, KeyVariable) != "" && Getenv(env, SecretVariable) != "" ==>
              && (SendToBugfixes(env, debugStack, isTTY, requestError, sendError, closeError).Panics? <==>
                    parsed.Panics? || (parsed.value.err.None? && requestError.Some?))
              && (parsed.Returns? && parsed.value.err.Some? ==>
                    SendToBugfixes(env, debugStack, isTTY, requestError, sendError, closeError)
                    == Returns(Abandoned("bugfixes: failed to parse bug: " + parsed.value.err.value)))
    ensures var d := SendToBugfixes(env, debugStack, isTTY, requestError, sendError, closeError);
              d.Returns? && d.value.Attempted? ==>
                && KeyVariable in env && SecretVariable in env
                && d.value.request.headers["X-Api-Key"] == env[KeyVariable]
                && d.value.request.headers["X-Api-Secret"] == env[SecretVariable]
                && d.value.request.body == BugReport(debugStack, isTTY).value.bug
  {
    var key := Getenv(env, KeyVariable);
    var secret := Getenv(env, SecretVariable);
    if key != "" && secret != "" {
      var parsed := BugReport(debugStack, isTTY);
      SystemSendOutcomes(key, secret, env, parsed, requestError, sendError, closeError);
      RequestErrorPanicsAsWritten(key, secret, env, parsed, requestError, sendError, closeError);
    }
  }

  /** How `client.Do` fails: with no response at all (the server cannot be
      reached, the timeout passes), or with the last response of a redirect
      chain it refused to follow (more than ten redirects), whose body it has
      already closed. */
  datatype SendFailure = NoResponse(message: string) | RedirectRefused(message: string)

  /** The root package's record. */
  datatype BugFixes = BugFixes(bug: Option<string>, raw: Option<string>, bugLine: string, file: string, line: int)

  /** The root package's `sendToBugfixes` exactly as written: credentials
      are checked first; the request's headers are set before its error is
      checked, and the response body is closed without checking the send
      error, so a request that cannot be built, or a send that got no
      response, panics on a nil pointer. A refused redirect still yields a
      response, whose closed body closes again without harm; a close error
      is ignored anyway. `parsed` is the outcome of the
      root package's own stack parse, which is not part of this model. */
  function RootSendAsWritten(env: Env, parsed: Run<Result<BugFixes, string>>,
                             requestError: Option<string>, sendError: Option<SendFailure>): Run<Delivery<BugFixes>>
  {
    var key := Getenv(env, KeyVariable);
    var secret := Getenv(env, SecretVariable);
    if key == "" || secret == "" then Returns(Skipped)
    else if parsed.Panics? then Panics(parsed.reason)
    else if parsed.value.Err? then Returns(Abandoned("bugfixes: failed to parse bug: " + parsed.value.error))
    else if requestError.Some? || (sendError.Some? && sendError.value.NoResponse?) then Panics(NilDereference)
    else Returns(Attempted(BugRequest(RootEndpoint(env), RequestHeaders(key, secret), parsed.value.value), None))
  }

  /** The root package's `sendToBugfixes` with the request error reported
      and the send error ignored, as the discarded error shows is meant. */
  function RootSend(env: Env, parsed: Run<Result<BugFixes, string>>,
                    requestError: Option<string>, sendError: Option<SendFailure>): Run<Delivery<BugFixes>>
  {
    var key := Getenv(env, KeyVariable);
    var secret := Getenv(env, SecretVariable);
    if key == "" || secret == "" then Returns(Skipped)
    else if parsed.Panics? then Panics(parsed.reason)
    else if parsed.value.Err? then Returns(Abandoned("bugfixes: failed to parse bug: " + parsed.value.error))
    else if requestError.Some? then Returns(Abandoned("bugfixes: failed to new request: " + requestError.value))
    else Returns(Attempted(BugRequest(RootEndpoint(env), RequestHeaders(key, secret), parsed.value.value), None))
  }

  /** As written, once credentials are set and the bug parsed, a request
      that cannot be built or a send without a response panics, and nothing
      else does; the guarded send panics only when the parse did. Wherever
      the code as written does not panic, the two agree. */
  lemma RootNetworkErrorsPanicAsWritten(env: Env, parsed: Run<Result<BugFixes, string>>,
                                        requestError: Option<string>, sendError: Option<SendFailure>)
    requires Getenv(env, KeyVariable) != "" && Getenv(env, SecretVariable) != ""
    requires parsed.Returns? && parsed.value.Ok?
    ensures RootSendAsWritten(env, parsed, requestError, sendError).Panics? <==>
              requestError.Some? || (sendError.Some? && sendError.value.NoResponse?)
    ensures RootSend(env, parsed, requestError, sendError).Returns?
    ensures requestError.None? ==>
              RootSend(env, parsed, requestError, sendError)
              == Returns(Attempted(BugRequest(RootEndpoint(env), RequestHeaders(env[KeyVariable], env[SecretVariable]), parsed.value.value), None))
    ensures RootSendAsWritten(env, parsed, requestError, sendError).Returns? ==>
              RootSendAsWritten(env, parsed, requestError, sendError) == RootSend(env, parsed, requestError, sendError)
  {
  }

  /** A refused redirect is no failure to the root package: as written it
      sends exactly what the guarded send sends, whatever the rest. */
  lemma RootRedirectRefusalHarmless(env: Env, parsed: Run<Result<BugFixes, string>>,
                                    requestError: Option<string>, message: string)
    ensures RootSendAsWritten(env, parsed, requestError, Some(RedirectRefused(message))) ==
              if requestError.Some? && Getenv(env, KeyVariable) != "" && Getenv(env, SecretVariable) != ""
                 && parsed.Returns? && parsed.value.Ok?
              then Panics(NilDereference)
              else RootSend(env, parsed, requestError, Some(RedirectRefused(message)))
  {
  }

  /** Both packages send the same headers for the same credentials, and the
      root package never writes a diagnostic after a request is made. */
  lemma RootAndMiddlewareHeadersAgree(env: Env, parsed: Run<Result<BugFixes, string>>,
                                      requestError: Option<string>, sendError: Option<SendFailure>)
    ensures var d := RootSend(env, parsed, requestError, sendError);
              d.Returns? && d.value.Attempted? ==>
                && d.value.request.headers == RequestHeaders(env[KeyVariable], env[SecretVariable])
                && d.value.diagnostic.None?
    ensures RootSend(env, parsed, requestError, sendError) == Returns(Skipped) <==>
              Getenv(env, KeyVariable) == "" || Getenv(env, SecretVariable) == ""
  {
  }
}
