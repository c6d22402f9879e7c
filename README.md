# Jira OAuth token generator: pending-authorization registry and callback decision

This project models the core of `server.js` in Dafny. The server is a small OAuth 2.0
authorization-code relay for Atlassian. `/auth/start` issues a state token and records it
in an in-memory registry (`pendingAuths`). `/auth/callback` checks the provider's answer
against that registry, exchanges the code for tokens and enforces a single allow-listed
workspace. A five-minute timer sweeps entries older than ten minutes, and `/health`
reports how many entries are pending.

- `wrappers.dfy` (`Wrappers`): `Option`.
- `registry.dfy` (`Registry`): the registry is the class `PendingAuths`. It holds
  `map<string, Entry>` and has the methods `Start`, `Consume`, `Sweep` (a loop over the keys)
  and `Size`. `Swept` is the specification function for one sweep, and the sweep lemmas are
  stated about it. `ConsumeOnce` and `ExpiryThenConsume` are client methods: they run the
  class end to end.
- `workspace.dfy` (`Workspace`): workspace selection. It covers ASCII lower-casing, the first
  case-insensitive match (the `find` at line 97), the `allowedWorkspaceResource || resources[0]`
  fallback, and the list of names shown on the denial page.
- `callback.dfy` (`Callback`): the callback handler.
  - `HandleCallback` is a method. It makes the early returns, consumes the state from the
    registry, and then runs the try block.
  - Its specification is the function `Respond` together with `PendingAfter`.
  - Upstream results are an input (`Upstream`): the token exchange, the profile fetch, the
    accessible resources and the Jira-user fetch. The model records which upstream requests
    would be made (`seq<Call>`). That is how properties such as "no resource fetch after a
    failed exchange" are stated.

JavaScript truthiness is modelled explicitly. A query parameter or `ALLOWED_WORKSPACE`
that is absent or the empty string counts as not given (`Given`, `Configured`).

## Model

| member | source | states |
|---|---|---|
| Registry.PendingAuths.constructor | server.js:13 | the registry starts empty |
| Registry.PendingAuths.Start | server.js:18-41 | returns the state it recorded; the key set gains exactly that state, its entry carries `now` and the request metadata (overwriting any old entry), every other key keeps its entry |
| Registry.PendingAuths.Consume | server.js:55-60 | returns the entry under the state if there is one, else nothing; afterwards the key is absent and every other entry is unchanged |
| Registry.PendingAuths.Sweep | server.js:501-510 | the loop that deletes while iterating leaves exactly `Swept(old entries, now)` |
| Registry.PendingAuths.Size | server.js:493-498 | the `/health` count equals the number of registry entries |
| Registry.SweptKeeps | server.js:503-509 | a key survives a sweep iff it was present and `now - timestamp <= 600000`, and it keeps its entry |
| Registry.SweepBoundary | server.js:506 | an entry aged exactly 600000 ms survives, and one aged 600001 ms is removed |
| Registry.SweepIdempotent | server.js:505-509 | a second sweep at the same time changes nothing |
| Registry.SweepLater | server.js:501-510 | sweeping at t1 and then at a later t2 equals one sweep at t2 |
| Registry.SweepShrinks | server.js:505-509 | a sweep never increases the registry size |
| Registry.ConsumeOnce | server.js:19-60 | after one start, the first consume returns the recorded entry, a second consume returns nothing, and the registry is empty |
| Registry.ExpiryThenConsume | server.js:501-510 | after a sweep, a state can still be consumed iff its age at the sweep is at most ten minutes; if so the entry keeps its issue time |
| Workspace.LowerChar | server.js:97 | never returns an upper-case ASCII letter, so the names compared are in lower case |
| Workspace.Lower | server.js:97 | has the same length as its input and lower-cases it character by character |
| Workspace.LowerIdempotent | server.js:97 | lower-casing twice equals lower-casing once |
| Workspace.FirstMatch | server.js:97 | gives the index of a resource whose lower-cased name equals the lower-cased allowed name, with no match before it; gives nothing iff no resource matches |
| Workspace.SelectWorkspace | server.js:93-147 | with an allow-list: denies iff no resource matches, never reports no workspace, and picks the resource at `FirstMatch`'s index whenever there is a match. Without one: picks `resources[0]`, or no workspace iff the list is empty. A chosen resource is always one of the list |
| Workspace.Names | server.js:129-136 | the denial list has one name per resource, in order |
| Workspace.UniqueMatchChosen | server.js:96-99 | if exactly one resource matches, it is chosen wherever it stands in the list |
| Workspace.ChoiceIgnoresTail | server.js:97 | resources after the first match do not affect the choice |
| Workspace.AcmeExample | server.js:96-101 | allow-list "acme" picks "Acme" in either order of ["Acme","Other"]; ["Other"] alone is denied |
| Callback.Status | server.js:44-372 | 400, 403, 500 and 200 correspond one to one to bad request, denial, server error and success |
| Callback.HandleCallback | server.js:44-185 | the handler's response and the registry afterwards are `Respond` and `PendingAfter` of the registry before |
| Callback.AfterConsume | server.js:62-351 | the try block and its catch: the code exchange is the first request, and no outcome is a 400. A token-exchange failure happens iff the exchange fails. A failed profile fetch, or a failed resources fetch, is a 500 after exactly the requests made so far. A 403 happens only after all three fetches succeeded with an allow-list configured, and it lists every resource name. The Jira-user fetch is the last request iff the outcome is success. On success the tokens are the exchange's and the workspace is one of the accessible resources |
| Callback.Respond | server.js:44-185 | a callback is a 400 iff the query fails a parameter check or its state is not pending; no upstream request is made iff it is a 400 |
| Callback.PendingAfter | server.js:55-60 | only a well-formed query's own state can leave the registry, and it does leave when pending; every remaining entry is unchanged |
| Callback.ProviderErrorFirst | server.js:47-49 | a provider `error` yields 400 "Authentication failed: <error>" even if code or state is missing; no upstream call is made and the registry is unchanged |
| Callback.MissingParameter | server.js:51-53 | with no error, a missing code or state yields 400 "Missing authorization code or state"; no call is made and the registry is unchanged |
| Callback.UnknownState | server.js:55-58 | a state not in the registry yields 400 "Invalid or expired state"; no call is made and the registry is unchanged |
| Callback.ConsumedBeforeUpstream | server.js:55-63 | a pending state is deleted, and only that key, whatever the upstream answers; the first upstream call is the code exchange |
| Callback.ReplayRejected | server.js:55-60 | a second callback with an already consumed state yields 400 "Invalid or expired state" |
| Callback.TokenFailureStopsEarly | server.js:62-73 | a failed token exchange yields 500, and the exchange is the only upstream call |
| Callback.UpstreamFetchFailures | server.js:78-88 | after a successful exchange, a failed profile fetch is a 500 with no resource request, and a failed resources fetch is a 500 with no Jira-user request |
| Callback.DeniedListsNames | server.js:96-141 | with an allow-list and no match: 403 listing every resource name, and no Jira-user fetch |
| Callback.AllowListMatchSucceeds | server.js:96-147 | with an allow-list and a match: success with the first matching resource, after exchange, profile, resources and the Jira-user fetch for that workspace |
| Callback.NoAllowListTakesFirst | server.js:146-185 | without an allow-list: success with `resources[0]`; an empty list yields 500 |
| Callback.JiraUserFailureIgnored | server.js:149-165 | the Jira-user fetch's result never changes the response |
| Callback.SuccessMeans | server.js:44-186 | on success: the state was pending and is now gone, the tokens are the exchange's, the profile fetch succeeded, and the workspace is accessible and matches the allow-list if one is set. The calls are exchange, profile, resources, then the Jira-user fetch for that workspace |
| Callback.CallbackNeverGrows | server.js:55-60 | a callback never adds a key and never grows the registry |
| Callback.CallbackTwice | server.js:44-185 | a state just issued gets a callback past the registry check; the same callback again yields 400 "Invalid or expired state"; the registry ends empty |

## Left out

- HTML pages, CSS and the browser scripts (server.js:101-140, 187-346, 351-371, 376-491) are presentation only. The model keeps only the outcome and, for a denial, the listed names.
- The authorization URL built with `URLSearchParams` (server.js:26-36) and the `JSON.stringify` of the MCP config are library behaviour. `Start` returns only the state.
- `uuidv4()` and `Date.now()` are parameters: the state and `now`. `Start` does not assume the state is fresh; a repeated state overwrites the old entry, as the `Map.set` does.
- The axios requests to Atlassian are foreign network I/O. Their results are the `Upstream` input. The 500 page's text is not modelled. That text is `error.response?.data?.error || error.message`, so a provider-sent `error` field is shown unmasked. `ServerError` carries only which step failed.
- The profile's `name` and `email` are not modelled. They reach only the log lines and the success page. The token response's `expires_in` and `scope` are destructured and then never used.
- `Lower` is ASCII lower-casing. It does not cover Unicode `toLowerCase` (non-ASCII case pairs, special casings).
- Registry.PendingAuths.Sweep: visits keys in an arbitrary order, while the source iterates in insertion order. The result does not depend on the order.
- Concurrency: interleaved async requests and the `setInterval` timer itself are left out. Each operation is one atomic step. The get and delete in the callback have no `await` between them.
- `/health`'s `status` and ISO `timestamp`, `process.on('SIGINT')`, `app.listen`, express and cors setup, and the pm2 configuration in ecosystem.config.js are process plumbing.
- The model does not cover malformed upstream data; `Upstream.resources` is always a list of `{id, name}` records. In the source, what a malformed body does depends on the allow-list. With an allow-list configured, a non-array body makes the `find` throw (a 500). A resource without a `name` throws only if the `find` reaches it. Without an allow-list, a null, empty or non-indexable body throws at `resources[0]` or at `workspaceToUse.name` (a 500). A string body instead reaches the success page with an undefined workspace name. Its first character becomes the workspace, and the failed Jira-user fetch is swallowed. A nameless resource likewise shows as `undefined`. Array-valued query parameters (`?state=a&state=b`) are not modelled either.
- Timestamps are unbounded integers, not JavaScript doubles. Millisecond clock values are exact in both.
