/**
 * The /auth/callback handler of server.js as one decision: validate the query,
 * consume the pending state, then walk the upstream calls (token exchange,
 * profile, accessible resources), apply the workspace policy and, for a chosen
 * workspace, attempt the best-effort Jira-user fetch. The upstream results are
 * inputs (an oracle); the model records which upstream calls would be made.
 */
module Callback {
  import opened Wrappers
  import opened Registry
  import opened Workspace

  /** The query string fields the handler reads; None when the parameter is absent. */
  datatype Query = Query(code: Option<string>, state: Option<string>, error: Option<string>)

  /** A query value is given when it is present and non-empty (JavaScript truthiness). */
  predicate Given(p: Option<string>)
  {
    p.Some? && p.value != ""
  }

  /** The part of the token response that reaches the success page. */
  datatype Tokens = Tokens(accessToken: string, refreshToken: string)

  /**
   * What the identity provider would answer, call by call: the token exchange
   * (None when it throws), whether the profile fetch succeeds, the accessible
   * resources (None when that fetch throws) and whether the Jira-user fetch succeeds.
   */
  datatype Upstream = Upstream(
    exchange: Option<Tokens>,
    profileOk: bool,
    resources: Option<seq<Resource>>,
    jiraUserOk: bool)

  /** An outbound HTTP request the handler makes. */
  datatype Call =
    | ExchangeCode(code: string)
    | FetchProfile
    | FetchResources
    | FetchJiraUser(cloudId: string)

  /** Which step of the try block threw; all of them end in the same 500 page. */
  datatype Failure = TokenExchangeFailed | ProfileFetchFailed | ResourcesFetchFailed | WorkspaceUndefined

  /** The handler's terminal result. */
  datatype Outcome =
    | BadRequest(msg: string)          // 400
    | Forbidden(names: seq<string>)    // 403, listing every accessible workspace
    | ServerError(cause: Failure)      // 500
    | Success(tokens: Tokens, workspace: Resource)  // 200, credentials page

  datatype Response = Response(outcome: Outcome, calls: seq<Call>)

  const AuthFailedPrefix: string := "Authentication failed: "
  const MissingParamsMsg: string := "Missing authorization code or state"
  const InvalidStateMsg: string := "Invalid or expired state"

  /** The HTTP status each outcome is sent with. */
  function Status(o: Outcome): (code: int)
    ensures code == 200 <==> o.Success?
    ensures code == 400 <==> o.BadRequest?
    ensures code == 403 <==> o.Forbidden?
    ensures code == 500 <==> o.ServerError?
  {
    match o
    case BadRequest(_) => 400
    case Forbidden(_) => 403
    case ServerError(_) => 500
    case Success(_, _) => 200
  }

  /** The query passes both parameter checks. */
  predicate WellFormed(q: Query)
  {
    !Given(q.error) && Given(q.code) && Given(q.state)
  }

  /**
   * The try block and its catch, entered once the state has been consumed: the
   * code exchange always comes first, no outcome is a 400, the exchange alone
   * decides a token-exchange failure, and the Jira-user fetch is the last call
   * exactly when the callback succeeds.
   */
  function AfterConsume(code: string, allowed: Option<string>, up: Upstream): (r: Response)
    ensures |r.calls| > 0 && r.calls[0] == ExchangeCode(code)
    ensures !r.outcome.BadRequest?
    ensures r.outcome == ServerError(TokenExchangeFailed) <==> up.exchange.None?
    ensures up.exchange.Some? && !up.profileOk ==>
      r == Response(ServerError(ProfileFetchFailed), [ExchangeCode(code), FetchProfile])
    ensures up.exchange.Some? && up.profileOk && up.resources.None? ==>
      r == Response(ServerError(ResourcesFetchFailed), [ExchangeCode(code), FetchProfile, FetchResources])
    ensures r.outcome.Forbidden? ==>
      up.exchange.Some? && up.profileOk && up.resources.Some? && Configured(allowed) &&
      r.outcome.names == Names(up.resources.value)
    ensures r.calls[|r.calls| - 1].FetchJiraUser? <==> r.outcome.Success?
    ensures r.outcome.Success? ==>
      up.exchange == Some(r.outcome.tokens) && up.resources.Some? &&
      r.outcome.workspace in up.resources.value &&
      r.calls[|r.calls| - 1] == FetchJiraUser(r.outcome.workspace.id)
  {
    if up.exchange.None? then
      Response(ServerError(TokenExchangeFailed), [ExchangeCode(code)])
    else if !up.profileOk then
      Response(ServerError(ProfileFetchFailed), [ExchangeCode(code), FetchProfile])
    else if up.resources.None? then
      Response(ServerError(ResourcesFetchFailed), [ExchangeCode(code), FetchProfile, FetchResources])
    else
      var rs := up.resources.value;
      var fetched := [ExchangeCode(code), FetchProfile, FetchResources];
      match SelectWorkspace(rs, allowed)
      case Deny => Response(Forbidden(Names(rs)), fetched)
      case NoWorkspace => Response(ServerError(WorkspaceUndefined), fetched)
      case Use(w) => Response(Success(up.exchange.value, w), fetched + [FetchJiraUser(w.id)])
  }

  /** The whole callback, given the registry contents before it runs. */
  function Respond(pending: map<string, Entry>, q: Query, allowed: Option<string>, up: Upstream): (r: Response)
    ensures r.outcome.BadRequest? <==> !(WellFormed(q) && q.state.value in pending)
    ensures r.calls == [] <==> r.outcome.BadRequest?
  {
    if Given(q.error) then Response(BadRequest(AuthFailedPrefix + q.error.value), [])
    else if !Given(q.code) || !Given(q.state) then Response(BadRequest(MissingParamsMsg), [])
    else if q.state.value !in pending then Response(BadRequest(InvalidStateMsg), [])
    else AfterConsume(q.code.value, allowed, up)
  }

  /** The registry after the callback: the state is gone once it passed the checks and was found. */
  function PendingAfter(pending: map<string, Entry>, q: Query): (m: map<string, Entry>)
    ensures forall k :: k in m ==> k in pending && m[k] == pending[k]
    ensures forall k :: k in pending && k !in m ==> WellFormed(q) && k == q.state.value
    ensures WellFormed(q) && q.state.value in pending ==> q.state.value !in m
  {
    if WellFormed(q) && q.state.value in pending then pending - {q.state.value} else pending
  }

  /** The handler itself: early returns, then the consume, then the upstream steps. */
  method HandleCallback(registry: PendingAuths, q: Query, allowed: Option<string>, up: Upstream) returns (r: Response)
    modifies registry
    ensures r == Respond(old(registry.entries), q, allowed, up)
    ensures registry.entries == PendingAfter(old(registry.entries), q)
  {
    if Given(q.error) {
      return Response(BadRequest(AuthFailedPrefix + q.error.value), []);
    }
    if !Given(q.code) || !Given(q.state) {
      return Response(BadRequest(MissingParamsMsg), []);
    }
    var authData := registry.Consume(q.state.value);
    if authData.None? {
      return Response(BadRequest(InvalidStateMsg), []);
    }
    r := AfterConsume(q.code.value, allowed, up);
  }

  /** The provider's error is reported first, even when code or state is missing; nothing else happens. */
  lemma ProviderErrorFirst(pending: map<string, Entry>, q: Query, allowed: Option<string>, up: Upstream)
    requires Given(q.error)
    ensures Respond(pending, q, allowed, up) == Response(BadRequest(AuthFailedPrefix + q.error.value), [])
    ensures PendingAfter(pending, q) == pending
  {
  }

  /** Without an error, a missing code or state is a 400 that leaves the registry alone. */
  lemma MissingParameter(pending: map<string, Entry>, q: Query, allowed: Option<string>, up: Upstream)
    requires !Given(q.error) && (!Given(q.code) || !Given(q.state))
    ensures Respond(pending, q, allowed, up) == Response(BadRequest(MissingParamsMsg), [])
    ensures PendingAfter(pending, q) == pending
  {
  }

  /** A state that is not pending (never issued, swept or already used) is a 400 with no calls. */
  lemma UnknownState(pending: map<string, Entry>, q: Query, allowed: Option<string>, up: Upstream)
    requires WellFormed(q) && q.state.value !in pending
    ensures Respond(pending, q, allowed, up) == Response(BadRequest(InvalidStateMsg), [])
    ensures PendingAfter(pending, q) == pending
  {
  }

  /**
   * A pending state is removed before the first upstream call, whatever the
   * provider answers, and every other entry stays.
   */
  lemma ConsumedBeforeUpstream(pending: map<string, Entry>, q: Query, allowed: Option<string>, up: Upstream)
    requires WellFormed(q) && q.state.value in pending
    ensures PendingAfter(pending, q).Keys == pending.Keys - {q.state.value}
    ensures var r := Respond(pending, q, allowed, up);
      |r.calls| > 0 && r.calls[0] == ExchangeCode(q.code.value) && !r.outcome.BadRequest?
  {
  }

  /** Replaying a callback whose state was consumed is refused as an invalid state. */
  lemma ReplayRejected(pending: map<string, Entry>, q: Query, q2: Query, allowed: Option<string>, up: Upstream, up2: Upstream)
    requires WellFormed(q) && WellFormed(q2) && q2.state == q.state
    ensures Respond(PendingAfter(pending, q), q2, allowed, up2) == Response(BadRequest(InvalidStateMsg), [])
  {
  }

  /** A failed token exchange is a 500, after which no profile or resource request is made. */
  lemma TokenFailureStopsEarly(pending: map<string, Entry>, q: Query, allowed: Option<string>, up: Upstream)
    requires WellFormed(q) && q.state.value in pending && up.exchange.None?
    ensures Respond(pending, q, allowed, up) == Response(ServerError(TokenExchangeFailed), [ExchangeCode(q.code.value)])
  {
  }

  /** A failed profile or resources fetch is caught and answered with a 500; no later request is made. */
  lemma UpstreamFetchFailures(pending: map<string, Entry>, q: Query, allowed: Option<string>, up: Upstream)
    requires WellFormed(q) && q.state.value in pending && up.exchange.Some?
    ensures !up.profileOk ==>
      Respond(pending, q, allowed, up) ==
        Response(ServerError(ProfileFetchFailed), [ExchangeCode(q.code.value), FetchProfile])
    ensures up.profileOk && up.resources.None? ==>
      Respond(pending, q, allowed, up) ==
        Response(ServerError(ResourcesFetchFailed), [ExchangeCode(q.code.value), FetchProfile, FetchResources])
  {
  }

  /**
   * With the allow-list configured and no matching workspace the callback is a 403
   * naming every accessible workspace, and the Jira-user fetch is never attempted.
   */
  lemma DeniedListsNames(pending: map<string, Entry>, q: Query, allowed: Option<string>, up: Upstream)
    requires WellFormed(q) && q.state.value in pending
    requires up.exchange.Some? && up.profileOk && up.resources.Some?
    requires Configured(allowed)
    requires forall r :: r in up.resources.value ==> !Matches(r, allowed.value)
    ensures var resp := Respond(pending, q, allowed, up);
      resp.outcome == Forbidden(Names(up.resources.value)) &&
      forall c :: c in resp.calls ==> !c.FetchJiraUser?
  {
  }

  /**
   * Without an allow-list the first accessible resource is used; with none at all,
   * reading the undefined workspace's name throws and the callback is a 500.
   */
  lemma NoAllowListTakesFirst(pending: map<string, Entry>, q: Query, allowed: Option<string>, up: Upstream)
    requires WellFormed(q) && q.state.value in pending
    requires up.exchange.Some? && up.profileOk && up.resources.Some?
    requires !Configured(allowed)
    ensures var rs := up.resources.value;
      Respond(pending, q, allowed, up).outcome ==
        if rs == [] then ServerError(WorkspaceUndefined) else Success(up.exchange.value, rs[0])
  {
  }

  /**
   * With the allow-list configured and a matching workspace, the callback succeeds
   * with the first match after all four upstream requests, the last one scoped to it.
   */
  lemma AllowListMatchSucceeds(pending: map<string, Entry>, q: Query, allowed: Option<string>, up: Upstream, i: nat)
    requires WellFormed(q) && q.state.value in pending
    requires up.exchange.Some? && up.profileOk && up.resources.Some?
    requires Configured(allowed) && FirstMatch(up.resources.value, allowed.value) == Some(i)
    ensures var rs := up.resources.value;
      Respond(pending, q, allowed, up) ==
        Response(Success(up.exchange.value, rs[i]),
                 [ExchangeCode(q.code.value), FetchProfile, FetchResources, FetchJiraUser(rs[i].id)])
  {
  }

  /** The Jira-user fetch's failure is swallowed: its result never changes the response. */
  lemma JiraUserFailureIgnored(pending: map<string, Entry>, q: Query, allowed: Option<string>, up: Upstream)
    ensures Respond(pending, q, allowed, up) == Respond(pending, q, allowed, up.(jiraUserOk := !up.jiraUserOk))
  {
  }

  /**
   * What a 200 means: the state was pending and is now consumed, the token exchange
   * returned the tokens shown, and the workspace is an accessible one that satisfies
   * the allow-list when there is one.
   */
  lemma SuccessMeans(pending: map<string, Entry>, q: Query, allowed: Option<string>, up: Upstream)
    requires Respond(pending, q, allowed, up).outcome.Success?
    ensures WellFormed(q) && q.state.value in pending
    ensures q.state.value !in PendingAfter(pending, q)
    ensures var o := Respond(pending, q, allowed, up).outcome;
      up.exchange == Some(o.tokens) && up.profileOk && up.resources.Some? && o.workspace in up.resources.value &&
      (Configured(allowed) ==> Matches(o.workspace, allowed.value))
    ensures Respond(pending, q, allowed, up).calls ==
      [ExchangeCode(q.code.value), FetchProfile, FetchResources, FetchJiraUser(Respond(pending, q, allowed, up).outcome.workspace.id)]
  {
  }

  /** Every callback leaves the registry the same or one entry smaller, and never adds a key. */
  lemma CallbackNeverGrows(pending: map<string, Entry>, q: Query)
    ensures PendingAfter(pending, q).Keys <= pending.Keys
    ensures |PendingAfter(pending, q)| <= |pending|
  {
    SubsetSize(PendingAfter(pending, q).Keys, pending.Keys);
  }

  /**
   * A state issued by /auth/start completes one callback that gets past the
   * registry, and the same callback sent again is refused as an invalid state.
   */
  method CallbackTwice(state: string, code: string, now: int, allowed: Option<string>, up: Upstream)
    returns (first: Response, second: Response, left: nat)
    requires state != "" && code != ""
    ensures !first.outcome.BadRequest? && |first.calls| > 0
    ensures second == Response(BadRequest(InvalidStateMsg), [])
    ensures left == 0
  {
    var registry := new PendingAuths();
    var issued := registry.Start(state, now, "", None);
    var q := Query(Some(code), Some(issued), None);
    first := HandleCallback(registry, q, allowed, up);
    second := HandleCallback(registry, q, allowed, up);
    left := registry.Size();
  }
}
