# GrantDeck: verified model

GrantDeck lets projects use language models behind an Envoy gateway. It authorizes every request with a bearer
token, turns projects and limit classes into gateway policies, deploys those policies to a Kubernetes namespace,
and counts the tokens that requests consumed. This project models that control plane in Dafny and proves what it
promises. `dafny verify dfyconfig.toml` checks everything.

| file | models |
|---|---|
| `Usage.dfy` | the event table, the daily aggregate, one call of `record_usage`, the access-log stream |
| `UsageProtocol.dfy` | any number of `record_usage` transactions interleaved statement by statement, with waiting on unique keys, row locks, overflow and rollback anywhere |
| `Dashboard.dfy` | the quota rows of the dashboard against the event log |
| `RouteNames.dfy` | exported route names |
| `Policies.dfy`, `PolicyRouting.dfy` | the policy compiler, and its documents as a list |
| `DeployedRouting.dfy` | what a deployed cluster means to the gateway, name collisions included |
| `Kubernetes.dfy` | reconciling the cluster with the compiled documents, with a fault possible at every call |
| `DeploymentLock.dfy` | many deployers, call by call, the advisory lock and edits in between |
| `Admin.dfy` | the admin pages that edit policies, and the redeployment warning |
| `Redeployment.dfy` | edits interleaved, call by call, with deployments that succeed or fail |
| `Endpoint.dfy`, `Authz.dfy` | the endpoint setting, the path test, the authorization decision, its headers and counters |
| `Accounting.dfy` | from an accepted request to the usage recorded for it |
| `Projects.dfy` | saving, joining and token creation over whole runs |
| `JoinLimiter.dfy` | the limiter of join attempts |
| `TokenNumber.dfy` | the printer of token counts |
| `Common.dfy` | sums, filters, sorting, decimal text |

The pattern is the same throughout. What the source writes as code that changes state is a method or class here,
proved equal to a specification function; lemmas then prove what that function guarantees over every input, every
interleaving and every run. Results of the outside world are parameters: the clock, the random quota key, the
faults of the Kubernetes API, the database's order of text on the dashboard, hashes and digests.

Some results span several parts. `UsageProtocol.RunsAreSerializable` shows that interleaved transactions are
equivalent to undisturbed calls, so that `Usage.StreamOutcome` and `Dashboard.RowShowsTheLog` apply to them.
`Authz.AcceptedRequestIsMetered` leads from a bearer token through the identity headers to the one route and the
one quota that a deployed cluster holds for it, and `Accounting.AcceptedCallIsCharged` from there to the daily row of
the token's own user and project. `Redeployment.HeedingWarningsSuffices` says when the cluster is
current, over any interleaving of edits with the calls of deployments that succeed or fail. Project deletion shows no
warning, and `Admin.DeletedProjectsAreSilent` says exactly when it changes what would be deployed.

## Where code and expectation differ

The model follows the code in these places.

- `README.md:104` of the repository says that `maxPendingRequests` is 0; the code sets it to `max_parallel_requests`
  (`apps/authz/policies.py:110-117`). See `PolicyRouting.RouteCarriesItsQuota`.
- The dashboard keys its dictionary by user, project and model, although the aggregate's key also has the project's
  shortcut (`apps/usage/dashboard.py:26-29`). Rows are listed by shortcut (`apps/usage/models.py:34`), so what is shown
  is the usage under the greatest shortcut of the day (`Dashboard.ShowsTheGreatestShortcut`).
  `Dashboard.ConsumedAgainstTheLog` gives the exact condition under which that is the sum over the log, and
  `Dashboard.RenamedProjectLosesTokens` a case in which it is not.
- `record_usage` answers False for every integrity error, also for a negative number that violates a check
  constraint, not just for a repeated request (`apps/usage/service.py:43-44`).
- Route names end in a truncated digest, so two models of one class can collide. Their documents then share kind and
  name, and the one applied last replaces the other: only the model that comes last in code-point order keeps a route
  and a quota, and requests for the other reach none (`DeployedRouting.RequestReachesDeployedRoute`). All models of a
  class are routed exactly when no two collide (`DeployedRouting.AllRoutedWithoutCollision`), and exactly then a failed
  redeployment of unchanged documents is sure to leave the cluster as it was (`Redeployment.RedeployingIsHarmless`).
- A stored quota key is immutable unless it is empty (`apps/authz/models.py:95-100`). See
  `Projects.KeyIsProtectedIffNonEmpty`.
- Deleting a project shows no redeployment warning (`apps/authz/admin.py:138-187`). `Admin.DeletionChangesSilently` is
  a case in which it changes the documents.
- A successful deployment is not enough to have heeded a warning: the advisory lock does not keep edits out, and one
  saved after the documents were built is missing from the cluster although the deployment succeeds after its warning
  (`apps/authz/kubernetes.py:138-149`, `Redeployment.EditDuringDeployment`). What suffices is that no warning has been
  shown since the last success built its documents (`Redeployment.HeedingWarningsSuffices`), and
  `Redeployment.CurrentExactlyWhen` gives the exact condition.
- A token form is validated before the token is inserted, so a membership revoked in between still yields a token
  (`apps/authz/forms.py:20-26`, `Projects.RevokedBeforeCreation`).

## Model

| member | source | states |
|---|---|---|
| Usage.RecordKeepsAgreement | apps/usage/service.py:27-63 | one call keeps the aggregate equal to a recount of the event log, and changes both tables or neither, overflow included |
| Usage.RecountAdd | apps/usage/service.py:46-61 | creating or incrementing one daily row gives the same table as recounting all events from scratch |
| Usage.ReplayIgnored | apps/usage/service.py:30-44 | repeating a recorded request, with whatever storable payload, is answered False and changes nothing |
| Usage.RecordAnswers | apps/usage/models.py:5-30 | exactly when a call answers True, when False and when it raises, with the lengths and ranges the columns set |
| Usage.DayIs | apps/usage/service.py:22-24 | a record counts for the UTC date its time lies in |
| Usage.UsageStore.RecordUsage | apps/usage/service.py:27-63 | the code with its savepoint leaves exactly the specified tables and answer |
| Usage.UsageStore.StreamAccessLogs | apps/usage/als.py:83-98 | the loops over messages and entries record exactly the complete entries of messages that carry HTTP logs, in order, up to the first exception |
| Usage.StreamOutcome | apps/usage/als.py:83-98 | a stream finishes exactly when every record fits its columns and the final counters fit theirs; it then leaves the merged events and their recount |
| Usage.CountersOnlyGrow | apps/usage/service.py:57-61 | no stream lowers a counter or removes a daily row |
| Usage.MergeContents | apps/usage/als.py:90-95 | with one payload per request the merged table holds exactly the old events and the storable records delivered |
| Usage.DeliveryOrderIrrelevant | apps/usage/als.py:84-98 | two streams with the same set of records leave the same events and aggregates, or both fail |
| Usage.ResendAfterInterruption | apps/usage/als.py:84-98 | stopping anywhere, at a cut or at an exception, and resending everything gives the tables and the outcome of one run from the start |
| Usage.EntryIsRecordedAs | apps/usage/als.py:49-80 | a complete entry is recorded as the values it carries without white space around them, the model from its header or else the route name, the whole number of tokens it says, and its own time or else the present |
| Usage.EntryIsDropped | apps/usage/als.py:24-63 | an entry is dropped exactly when it lacks request, user, project, project number or model, or its tokens are not a whole number at least zero |
| Usage.StripIs | apps/usage/als.py:51-55 | stripping removes the white space around a text and nothing else |
| Common.SpaceIs | apps/usage/als.py:51-55 | which characters count as white space |
| Usage.ParsedIsComplete | apps/usage/als.py:49-80 | a parsed record names request, user, project and model and has a non-negative count |
| Usage.RedeliveryParsesAlike | apps/usage/als.py:65-68 | a redelivered entry with a start time parses to the same record whenever it arrives |
| UsageProtocol.StepIsAtomic | apps/usage/service.py:29-63 | a statement that publishes or ends a call has the effect and answer of an undisturbed call at that instant; every other statement leaves the committed tables alone |
| UsageProtocol.StepKeepsInv | apps/usage/service.py:29-63 | every statement and every rollback keeps the agreement, what each transaction relies on, and exclusive holding of keys |
| UsageProtocol.AggregateAlwaysAgrees | apps/usage/service.py:29-63 | in every reachable state the committed aggregate is the recount of the committed events |
| UsageProtocol.RunsAreSerializable | apps/usage/service.py:29-63 | any run has the tables and answers of undisturbed calls made in the order in which the transactions finished; rolled-back ones leave no trace |
| UsageProtocol.ExactlyOnce | apps/usage/service.py:27-44 | of all concurrent calls with one request identifier at most one answers True, and its record is the one stored |
| UsageProtocol.NoDeadlock | apps/usage/service.py:31-61 | while a transaction is unfinished, some transaction can execute a statement |
| UsageProtocol.StepUsesMeasure | apps/usage/service.py:31-61 | every effective step lowers a measure |
| UsageProtocol.WorkIsBounded | apps/usage/service.py:31-61 | no schedule makes n calls take more than 6n effective steps |
| UsageProtocol.CanComplete | apps/usage/service.py:31-63 | every reachable state can be brought to completion without a rollback |
| UsageProtocol.ConcurrentDeliveryEqualsStream | apps/usage/service.py:29-63 | calls that all run to their end without a rollback, however interleaved, leave what one stream of their records leaves |
| UsageProtocol.RedeliveryCompletesAnyRun | apps/usage/als.py:84-98 | after any interleaving with any rollbacks, delivering all records again finishes exactly when one clean stream would, and then leaves the same tables |
| Dashboard.UsageDict | apps/usage/dashboard.py:26-29 | the dictionary gives each user, project and model the count of the last daily row listed for them today, or nothing |
| Dashboard.UsageRowsForProjects | apps/usage/dashboard.py:7-65 | the nested loops build exactly the specified rows in order |
| Dashboard.SortNames | apps/usage/dashboard.py:36-38 | identities are listed in code-point order, each once |
| Common.LexOrderIs | apps/usage/dashboard.py:36-38 | a name sorts before another if that one continues it or has the greater character where they first differ |
| Dashboard.RowsAre | apps/usage/dashboard.py:32-65 | a row is shown exactly for each project, identity and limit, and one more for an identity whose project has no limit |
| Dashboard.RowCount | apps/usage/dashboard.py:32-65 | there are as many rows as pairs of an identity and a limit, counting one for no limit |
| Dashboard.RowsSay | apps/usage/dashboard.py:11-62 | which rows are shown, value by value: for each project those of the user asked about or of everyone with a token of that project, a dash for an empty name or nobody, per limit or once with nothing |
| Dashboard.ShowsTheGreatestShortcut | apps/usage/dashboard.py:26-29 | what is shown is the sum over the events under the greatest of the shortcuts today's events of the identity give the project, and nothing without events |
| Dashboard.ConsumedAgainstTheLog | apps/usage/dashboard.py:26-62 | the number shown never exceeds the naive sum over today's events, and equals it exactly when no tokens were used under any other than the greatest shortcut |
| Dashboard.OneShortcutShowsTheSum | apps/usage/dashboard.py:26-62 | with one shortcut that day the number shown is the naive sum |
| Dashboard.RenamedProjectLosesTokens | apps/usage/dashboard.py:26-29 | a project renamed from "a" to "b" during the day shows 5 of 8 tokens wherever "a" sorts before "b" |
| Dashboard.RenamedIsRead | apps/usage/models.py:33-34 | that case can occur: its tables agree and its rows are listed by shortcut |
| Dashboard.RowShowsTheLog | apps/usage/dashboard.py:41-65 | every row with a limit belongs to a project, one of its limits and one of its identities, shows the end of the day as reset, and shows the log's sum under that condition |
| Dashboard.CountedEventsLieInTheDay | apps/usage/service.py:22-24 | the reset shown is the next midnight, and the events counted for today are exactly those of the 24 hours that end with it, the present among them |
| RouteNames.SlugFixedPoints | apps/authz/quota_keys.py:6 | the texts slugging leaves alone are exactly those of 1 to 24 characters over [a-z0-9-] without doubled or edge hyphens, and slugging twice equals slugging once |
| RouteNames.SlugIsSlugText | apps/authz/quota_keys.py:6 | every slug has that form |
| RouteNames.WordsAreHyphenated | apps/authz/quota_keys.py:6 | replacing and stripping turn any text into its runs of [a-z0-9] joined by single hyphens |
| RouteNames.SlugOfWords | apps/authz/quota_keys.py:6 | a slug is that text cut to 24 characters without a hyphen at the cut, and "model" exactly for a text without such runs |
| RouteNames.TextIsSpelled | apps/authz/quota_keys.py:6 | every text is made up of such runs and gaps, so the two preceding results cover all names |
| RouteNames.RouteNameSays | apps/authz/quota_keys.py:8 | a name is its prefix, the project number, the slug and the digest |
| RouteNames.RouteNameIsLabel | apps/authz/quota_keys.py:5-8 | a name is at most 45 characters longer than the project number, and a label in the grammar of section 2.3.1 of RFC 1035 below 10^18 |
| RouteNames.RouteNameParses | apps/authz/quota_keys.py:5-8 | two names are equal exactly when project, slug and digest are |
| Policies.BuildPolicyDocuments | apps/authz/policies.py:155-170 | the nested loops give the documents of all grants in order, with the authorization policy last, or fail if a model has no backend |
| PolicyRouting.QueryGrants | apps/authz/policies.py:156-163 | the compiler visits each limited model of each classed project exactly once |
| PolicyRouting.CompileSucceeds | apps/authz/policies.py:19-24 | compilation succeeds exactly when every limited model has a backend |
| PolicyRouting.RequestReachesItsRoute | apps/authz/policies.py:46-64 | in the list of compiled documents a request for a project and a model matches exactly one route document if the class limits the model, and none otherwise |
| PolicyRouting.RouteCarriesItsQuota | apps/authz/policies.py:69-118 | in the list of compiled documents a quota with the project's daily and parallel limits is aimed at each route name, and it is the only one exactly when no other model of the class has the same slug and digest |
| PolicyRouting.QuotaCharges | apps/authz/policies.py:69-118 | a quota is aimed at its own limit's route and charges the unit that route reports; its circuit breaker exists exactly when a parallel limit does |
| PolicyRouting.CompiledReferencesClosed | apps/authz/policies.py:121-170 | compiled policies refer to compiled routes only, the authorization policy to all of them, and every document carries the managed label |
| PolicyRouting.CompiledDocumentsSay | apps/authz/policies.py:12-170 | what is compiled, field by field: for every grant a route attached to both listeners and a quota, and one authorization policy for all, labelled as managed; nothing else |
| Policies.LimitsAre | apps/authz/models.py:107-112 | a model is limited for a project exactly if the project's class limits it, with that limit |
| Kubernetes.ApplyOrderIsSorted | apps/authz/kubernetes.py:22-23 | the apply order keeps all documents and puts routes first, authorization last |
| Kubernetes.ApplyOrderSameResult | apps/authz/kubernetes.py:147-148 | sorting does not change what applying all documents leaves |
| Kubernetes.MidwayIsSafe | apps/authz/kubernetes.py:108-149 | in every state a deployment passes through or stops in, managed policies point at existing routes, if they did at the start |
| Kubernetes.MidwayTouchesOnlyItsOwn | apps/authz/kubernetes.py:108-149 | unmanaged resources outside the wanted names stay as they are in all those states, and nothing unwanted appears |
| Kubernetes.ForeignSurvives | apps/authz/kubernetes.py:108-119 | a resource without GrantDeck's label, or with another manager's value under it, is left as it is in every state unless a wanted document has its kind and name |
| Kubernetes.UnwantedIsGone | apps/authz/kubernetes.py:121-132 | a resource with that label and value that is not wanted is gone after success |
| Kubernetes.PoliciesStayRouted | apps/authz/kubernetes.py:22-23 | every policy that carries the label has the routes it is aimed at, in every state and after success, if it had at the start |
| Kubernetes.RerunConverges | apps/authz/kubernetes.py:136-149 | a rerun after any partial failure reaches the state an undisturbed deployment reaches |
| DeployedRouting.RequestReachesDeployedRoute | apps/authz/kubernetes.py:80-105 | in a current cluster exactly one managed route takes a request for a limited model that comes last among those it collides with, and none takes any other request |
| DeployedRouting.DeployedRouteCarriesItsQuota | apps/authz/policies.py:69-118 | on a limited model's route there is exactly one managed quota, that of the last of the models it collides with, hence its own if it is that one |
| DeployedRouting.AllRoutedWithoutCollision | apps/authz/quota_keys.py:5-8 | every model of a class reaches a route exactly when no two share slug and digest |
| DeployedRouting.RoutesArePoliced | apps/authz/policies.py:168-169 | a current cluster with any managed resource has the authorization policy, and it covers every managed route |
| DeployedRouting.ReconciledIsCurrent | apps/authz/kubernetes.py:138-149 | a successful deployment leaves a current cluster |
| Kubernetes.ReconciledIsDesired | apps/authz/kubernetes.py:108-149 | after success the managed resources are exactly the compiled documents; a second deployment prunes nothing and changes nothing |
| Kubernetes.CompiledDocumentsQualify | apps/authz/policies.py:155-170 | whatever the compiler returns meets the assumptions of these results |
| Kubernetes.MidwayIsWellFormed | apps/authz/kubernetes.py:80-105 | every state keeps each resource under its own kind and name, so a rerun may start there |
| Kubernetes.Api.Apply | apps/authz/kubernetes.py:80-105 | a forced apply replaces the resource of that kind and name and nothing else |
| Kubernetes.Api.DeleteUnwanted | apps/authz/kubernetes.py:121-132 | the loop deletes the listed resources that are not desired, counts them, and passes only through partial deletions |
| Kubernetes.Api.PruneKind | apps/authz/kubernetes.py:111-132 | one round of the loop over kinds removes and counts exactly what was stale of that kind at the start |
| Kubernetes.Api.Prune | apps/authz/kubernetes.py:108-133 | pruning in reverse order ends in the reconciled state and counts exactly the resources that were managed and unwanted at the start |
| Kubernetes.Api.DeployAllPolicies | apps/authz/kubernetes.py:136-149 | under any faults every state on the way is one of those above and resources of others survive; success means reconciled, ours that are unwanted gone, with the number applied and pruned; without faults it succeeds |
| DeploymentLock.StepKeepsInv | apps/authz/kubernetes.py:62-157 | every step of any deployer, and every edit, keeps the lock, the holder's progress through apply and prune order, safety, the order of calls and what a success has installed |
| DeploymentLock.AskingForTheLock | apps/authz/kubernetes.py:68-72 | who asks gets the lock if it is free and is turned away at once otherwise |
| DeploymentLock.BuildingInTheLock | apps/authz/kubernetes.py:138-142 | documents are built from the database as it is inside the lock; without them or the environment no call is made |
| DeploymentLock.CallsDoWhatTheySay | apps/authz/kubernetes.py:80-132 | a refused call changes nothing; any other has its effect, and only one that is answered lets the deployment go on |
| DeploymentLock.OneDeployerAtATime | apps/authz/kubernetes.py:62-149 | in every reachable state at most one deployment is between lock and unlock, the cluster is what its calls so far have made of what it found, and every managed policy points at existing routes |
| DeploymentLock.SnapshotsNeverGoBack | apps/authz/kubernetes.py:138-149 | calls of different deployments never mix, and no call applies or prunes for an older database snapshot than an earlier call |
| DeploymentLock.SuccessInstallsItsSnapshot | apps/authz/kubernetes.py:138-149 | after a success, until somebody calls again, the managed resources are exactly those compiled from the snapshot it built |
| DeploymentLock.LockIsGivenBack | apps/authz/kubernetes.py:73-77 | under every schedule a holder has released the lock or can take a further step, and after its documents are built it releases within a fixed number of its own steps, however its calls fare |
| DeploymentLock.FailureEndsTheBody | apps/authz/kubernetes.py:150-157 | whatever follows a failed call, its deployment makes no further call and never comes to report success |
| DeploymentLock.CompiledSnapshotsAreSound | apps/authz/policies.py:155-170 | what the compiler makes of any sequence of database states meets the assumption of these results |
| Admin.GrantsAreTheLimits | apps/authz/policies.py:155-166 | two databases compile from the same grants exactly when the same limits apply to every project |
| Admin.NoWarningNoChange | apps/authz/admin.py:175-226 | an addition or change of a project and any operation on classes that shows no warning leaves the compiled documents as they were; likewise for model limits |
| Admin.DeletedProjectsAreSilent | apps/authz/admin.py:138-187 | deleting projects shows no warning; the result of compiling stays the same exactly when no class limits anything for them or, if it was a failure, when a remaining project still has a limited model without a backend |
| Admin.DeletionChangesSilently | apps/authz/admin.py:138-187 | deleting the only project of a limited class changes the documents without a warning |
| Redeployment.HeedingWarningsSuffices | apps/authz/kubernetes.py:136-157 | over any interleaving of edits with the calls of deployments that succeed or fail: if no warning has been shown since some successful deployment built its documents, the managed resources are those compiled from the database now, provided nobody has called since or no two models of a class collide |
| Redeployment.CurrentExactlyWhen | apps/authz/kubernetes.py:138-149 | after a success, until somebody calls, the cluster is current exactly when the database compiles to the resources it compiled to at the build; without collisions, exactly when all projects' limits are the same as then |
| Redeployment.EditDuringDeployment | apps/authz/kubernetes.py:138-149 | a limit added between build and end of a deployment: its warning is shown, the deployment succeeds afterwards, and the cluster lacks the limit |
| Redeployment.SilenceIsSame | apps/authz/admin.py:175-321 | as long as edits show no warning and delete only unlimited projects, the database compiles to the same documents |
| Redeployment.StepKeepsUpToDate | apps/authz/kubernetes.py:136-157 | every edit and every step of any deployment keeps installed documents in the cluster, as long as the database compiles to them and no two share a name |
| Redeployment.RedeployingIsHarmless | apps/authz/kubernetes.py:136-157 | a failing deployment of what a cluster already holds can leave something else exactly when two different documents share kind and name |
| Redeployment.AgreeingWithoutCollision | apps/authz/quota_keys.py:5-8 | compiled documents differ in kind or name exactly when no two models of a class collide |
| Redeployment.Redeploy | apps/authz/kubernetes.py:136-157 | lock, compilation and deployment end in one of the ways those runs allow, and without faults in success |
| Admin.SameDocumentsSameGrants | apps/authz/policies.py:155-170 | compiled documents determine the grants they came from |
| Admin.UnchangedFormsKeep | apps/authz/admin.py:196-198 | a formset in which no form has changed saves the limits it was loaded with |
| Admin.PerformKeepsReferences | apps/authz/models.py:72-78 | no operation leaves a project with a class that does not exist; a refused one changes nothing |
| Admin.AnyChanged | apps/authz/admin.py:197 | the scan of the formsets finds a change exactly when some form has one |
| Admin.SaveForms | apps/authz/admin.py:198 | a formset is saved exactly if it is valid, which refuses a model that any stored limit has even if that one is deleted along with it; the limits are then those of the kept forms and those without a form |
| Admin.SavedFormsAre | apps/authz/models.py:237-241 | saving a valid formset row by row never meets the unique constraint and leaves exactly that |
| Admin.AdminSite.SaveProject | apps/authz/admin.py:175-187 | accepted exactly when the form is valid, its class exists and its unique values are free; only that project changes, to the values of the form with its key kept or generated, and a warning is due exactly when it is new or its class changes |
| Admin.AdminSite.SubmitClass | apps/authz/admin.py:196-204 | accepted exactly when the form and its formset are valid, name and slug are free and a stored slug is kept; only that class changes, to what was submitted, with a warning exactly when some inline form has changed |
| Admin.ValidLimitIs | apps/authz/models.py:224-250 | the lengths and ranges of a valid limit |
| Admin.AdminSite.DeleteClasses | apps/authz/admin.py:206-226 | refused exactly when a project uses one of them; otherwise exactly those are gone, with a warning exactly when one had limits |
| Admin.AdminSite.SubmitLimit | apps/authz/admin.py:299-305 | saving a limit is accepted exactly when its place is free and it is valid; it is then stored, the row edited is gone from its old place, every other limit and all else is unchanged, and a warning is always shown |
| Admin.SavedLimit | apps/authz/admin.py:299-305 | the same of the specification that the results on warnings use |
| Admin.AdminSite.DeleteLimits | apps/authz/admin.py:307-321 | exactly the selected limits are gone, all else is unchanged, and a warning is always shown |
| Admin.AdminSite.DeleteProjects | apps/authz/admin.py:138-187 | exactly the selected projects are gone, all else is unchanged, and no warning is shown |
| Endpoint.EndpointIsNormal | grantdeck/settings.py:46-66 | an accepted endpoint is in normal form, and accepting it again changes nothing |
| Endpoint.EndpointOf | grantdeck/settings.py:52-66 | of the HTTP URLs with an authority and a plain path exactly those with a host and without credentials are accepted, in normal form |
| Endpoint.AcceptedScheme | grantdeck/settings.py:53-54 | only http and https, in any case, are accepted |
| Endpoint.LowerCharIs | grantdeck/settings.py:66 | lowering maps the 26 capitals and changes nothing else |
| Endpoint.IgnoredCharacters | grantdeck/settings.py:52 | control characters before a URL and tabs and line ends in it do not matter |
| Endpoint.ExtrasAreRefused | grantdeck/settings.py:58-60 | a query or a fragment is refused |
| Endpoint.UnbalancedIsRefused | grantdeck/settings.py:52 | an authority with one bracket and not the other is refused |
| Endpoint.HostIs | grantdeck/settings.py:55 | the host is what follows the last '@', without the port |
| Endpoint.NormalPathIs | apps/authz/views.py:75-76 | a path without its trailing slashes, or the root |
| Endpoint.PathPartIs | apps/authz/views.py:64-72 | the path a request is judged by: without tabs and line ends, up to the first '?' or '#', and otherwise as it stands |
| Endpoint.CredentialsOf | grantdeck/settings.py:56-57 | what precedes the last '@' counts as credentials unless it is empty or a lone ':' |
| Endpoint.SplitOfJoined | apps/authz/views.py:64-72 | joining scheme, authority and rooted path and splitting again gives them back, the path up to '?' or '#' and without tabs and line ends |
| Endpoint.SegmentPrefix | apps/authz/views.py:77-81 | being equal or continued by a slash is being a prefix of the list of segments |
| Endpoint.MatchIsSegmentPrefix | apps/authz/views.py:64-81 | the origins always agree, and a request is below the endpoint exactly when the endpoint's segments are a prefix of its own (path segments as in section 3.3 of RFC 3986) |
| Authz.BearerToken | apps/authz/views.py:87-95 | a header of two words, spaced in any way, carries a token exactly when the first is "bearer" in any case and the second starts with gdk_ |
| Authz.TokenHeader | apps/authz/views.py:87-95 | a header of any other form carries none |
| Authz.AllowedExactlyWhen | apps/authz/views.py:85-118 | the four answers: unauthorized without a token; unknown exactly for a token that is not stored, expired or of an ended project; allowed exactly with a limit class and a path that continues the endpoint's segment by segment, denied otherwise |
| Authz.CounterIsFull | apps/authz/models.py:267-268 | a counter update raises exactly at 2^63-1 |
| Authz.AcceptedRequestIsMetered | apps/authz/views.py:109-118 | in a current cluster, whatever the client sends, an accepted request names its token's holder and project, reaches exactly the route deployed for its project and model, under authorization, and is charged to exactly that project's quota if the model is limited and prevails among those it collides with; otherwise it reaches no route |
| Authz.ForwardedHeaders | apps/authz/policies.py:142-148 | the forwarded headers are those of the answer, and the project number in them reads back as the token's project |
| Accounting.AcceptedCallIsCharged | apps/usage/als.py:49-80 | the log entry of an accepted call that says k tokens is recorded with k, under the UTC date of its time, the token's own user, project and shortcut and the model asked for, whatever identity the client's headers claimed |
| Accounting.RecordedOnce | apps/usage/service.py:46-61 | recording a call adds its tokens and one request to the sums of its own key and to no other's, and the daily row shows the new sum |
| Authz.AuthzService.Check | apps/authz/views.py:85-118 | decision and counters after one check, also when a counter is full |
| Authz.StepKeepsBooks | apps/authz/models.py:325-333 | no step of any interleaving of checks, edits and deletions breaks the match of counters and answers |
| Authz.CountersCountAnswers | apps/authz/models.py:325-333 | a token's counters grow by exactly the 200 answers and the 403 answers given for it, for any interleaving |
| Projects.KeyIsProtectedIffNonEmpty | apps/authz/models.py:94-101 | no save changes a stored quota key exactly when it is not empty |
| Projects.JoinResult | apps/authz/models.py:120-130 | after a join the user has one row for the project, active if it was active or needs no approval, and no other row changes |
| Projects.OnlyByCode | apps/authz/models.py:151-160 | a join by code happens exactly with the non-empty code of a project that has not ended, and changes nothing but the membership |
| Projects.MembershipTable.JoinUser | apps/authz/models.py:120-130 | get-or-create and activation leave the specified table and return the stored status |
| Projects.ApplyKeepsInv | apps/authz/models.py:57-130 | every operation keeps keys, shortcuts, join codes, class names and slugs unique, one membership per user and project, bounded token lifetimes, and stored keys and slugs |
| Projects.ReachableStatesAreSound | apps/authz/models.py:292-310 | over any run the unique columns are unique, there is one membership per user and project, and no token is active later than the maximum lifetime after its creation |
| Projects.AcceptedInTime | apps/authz/models.py:305-319 | at no point of any run is a check accepted after the maximum lifetime since its token's creation, after the token's expiry, or after its project's end date |
| Projects.TokensWereIssued | apps/authz/models.py:162-169 | over any run every stored token was created from a form found valid at an earlier position, for a superuser or someone who was then an active member of its project, while that had not ended, for a lifetime within the bound |
| Projects.FormValidIs | apps/authz/forms.py:7-18 | exactly when a token form is valid |
| Projects.RevokedBeforeCreation | apps/authz/forms.py:20-26 | the entitlement can be gone when the token is created |
| Projects.QuotaKeyIdentifiesProject | apps/authz/views.py:111-116 | two accepted checks at any two times return the same non-empty quota key exactly when their tokens belong to the same project |
| Projects.QuotaKeysTellProjectsApart | apps/authz/models.py:94-101 | in runs that store no empty key under a new primary key this holds without regard to the key returned |
| Projects.ValidityIsNeverRegained | apps/authz/models.py:305-319 | while its project's end date is left alone, a token that stopped being valid never becomes valid again |
| JoinLimiter.Limiter.ProjectJoinLimited | apps/frontend/views.py:35-38 | the cell after one attempt and whether it is let through, also when the window ends between add and increment |
| JoinLimiter.Limiter.JoinProject | apps/frontend/views.py:149-169 | the join proceeds exactly for admitted attempts with a matching code, and only a successful one resets the limiter |
| JoinLimiter.WindowIsNeverExtended | apps/frontend/views.py:35-38 | no attempt, blocked or not, moves the end of a live window |
| JoinLimiter.FreshWindowAdmits | apps/frontend/views.py:35-38 | the first attempt at or after expiry is admitted exactly when the limit is at least one |
| JoinLimiter.AttemptsAreBounded | apps/frontend/views.py:35-42 | in any interval of one window's length with k resets at most (2 + k) times the limit get through, however requests interleave |
| JoinLimiter.BoundIsAttained | apps/frontend/views.py:35-42 | for every limit of at least one, every window of two or more time units, every interval and every k, requests that follow one another, of which only admitted ones join, get (2 + k) times the limit through with k joins |
| TokenNumber.UnitIs | apps/frontend/templatetags/frontend.py:20-29 | the unit is the largest of one, a million, a billion and a trillion that the count reaches |
| TokenNumber.LargeTextSays | apps/frontend/templatetags/frontend.py:9-27 | from a million on the nearest tenth of the unit is printed, with a decimal comma only before a tenth that is not zero, and the unit's name |
| TokenNumber.SmallTextSays | apps/frontend/templatetags/frontend.py:17-29 | a smaller count is its grouped digits with a sign, an unknown one "Unavailable" |
| TokenNumber.ReadOfText | apps/frontend/templatetags/frontend.py:9-29 | reading a printed count gives the rounded number in its unit |
| TokenNumber.HalfEvenIsNearest | apps/frontend/templatetags/frontend.py:9-11 | rounding yields the nearest tenth, ties to even, and nothing else does |
| TokenNumber.ShownIsClose | apps/frontend/templatetags/frontend.py:20-29 | printing is exact below a million and off by at most a twentieth of the unit above |
| TokenNumber.TextIsMonotone | apps/frontend/templatetags/frontend.py:15-29 | a larger count never reads as a smaller number, across all unit switches |
| TokenNumber.RoundsUpInsideItsUnit | apps/frontend/templatetags/frontend.py:26-27 | 999 950 000 is shown as 1000 millions, which reads as a billion |
| TokenNumber.GroupsOfThree | apps/frontend/templatetags/frontend.py:29 | separators stand exactly between groups of three digits counted from the right |
| TokenNumber.GroupedDigits | apps/frontend/templatetags/frontend.py:29 | grouping adds separators to the decimal digits and nothing else |

## Left out

- `deployment_lock` on databases other than PostgreSQL, where no lock is taken, and the loss of an advisory lock when the database session ends during a deployment.
- Resources of the namespace that do not carry the managed label, such as routes created by hand, which could also accept requests.
- Everything about the Kubernetes client but the effect of apply, list and delete on one namespace with no other writers; a call works, is refused, or takes effect although its reply is lost.
- The group, version and timeout constants of the documents, and the gateway beyond exact header matching on the recomputed route: rate limiting and circuit breaking at run time.
- HMAC, SHA-256 and random generation are uninterpreted; digests are only known to be eight hexadecimal characters.
- Lower-casing and white space beyond ASCII, and the checks of `urlsplit` on bracketed addresses and on Unicode normalization of the authority.
- Parsing of numbers from text and floats in log entries (a value arrives as an integer, a real, or unreadable), NUL characters in text, and times outside the calendar.
- Accounting.AcceptedCallIsCharged: takes it that the gateway logs the request headers it forwards, and that their values have no white space at the ends.
- Usage.RecordAll: the warning for an incomplete entry is not modelled, because it changes no table.
- JoinLimiter.AttemptsAreBounded: is about one cache instance that neither evicts cells nor is separate per process.
- Dashboard.RowsAre: identities are a set of printed names, so an empty name and a name that is itself a dash would share a row.
- `project_limit_rows` and `next_quota_reset`, which repeat parts of the dashboard rows, and the metrics endpoint.
- TokenNumber.ReadOfText: is about integer counts with at most 28 digits; the rounding of longer decimals and of fractions is left out.
- Redeployment.HeedingWarningsSuffices: an edit and its warning count as one step, at its commit.
- Policies.Query: lists model names by code point; another collation of the database would only change which of several colliding models keeps its route.
- Policies.BuildPolicyDocuments: works on the rows of one query, without edits between its two database reads.
- Projects.ApplyKeepsInv: runs do not delete projects and do not edit a token's expiry, and joins do not overlap.
- Admin.NoWarningNoChange: submissions do not overlap; saving from an instance loaded before another administrator's edit is left out, as are the pages' permission checks.
- Deletion of daily rows and events, gRPC, templates, login pages and the OIDC pipeline, logging, migrations and environment parsing.
- Texts of error messages and the order in which several validation errors would be reported.
