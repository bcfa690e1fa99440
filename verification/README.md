# Verification of the platform's client, tooling and secret-handling cores

This project models the parts of the repository whose correctness depends on whole
runs or on all inputs, and proves what they promise. Each module follows one source
file or one layer of it; the source's objects are classes whose methods are proved
against specification functions, and the theorems are about those functions.

* **Vault secret provider** (`SecretCache`, `VaultStore`, `SecretProvider`,
  `SecretRuns`, `ProviderRuns`, `MonotoneReads`, `CheckAndSet`, `RenewalDeadline`,
  `RenewalLoops`).
  Any number of providers, each shared by any number of concurrent callers, run over
  one versioned store that other writers extend and destroy versions of. A fresh cache
  hit is two steps (load and check, then store back), so a `set` or `flush` may fall
  between them.
* **Browser protocols** (`WebSocketClient`, `AuthRefresh`, `ApiDriver`). Event-driven
  step relations with the browser's part (socket events, timers, fetch outcomes) as
  explicit events.
* **Text algorithms** (`HelmValues`, `Brackets`, `SchemaDiff`, `SchemaDiffLaws`,
  `SchemaAdditions`, `SchemaCollisions`,
  `DocumentStream`, `StreamLaws`, `HelmSnapshot`, `HelmSnapshotLaws`, `HelmMasking`), with `Text`, `Sequences`
  and `Decimals` as their shared vocabulary. `DocumentStream` splits and rewrites streams
  of documents for any recognisers; `HelmSnapshot` supplies the recognisers of the
  Helm snapshot script, and `HelmMasking` writes out what is masked, by name, key and placeholder.
* **Data movers** (`SecretWalk`, `SecretMigration`, `MockOidc`, `FqnBackfill`,
  `EnvMerge`).

A run is a sequence of events each of which was enabled when it happened (`Legal`),
and `After` is the state it leads to. Run theorems quantify over all legal runs.

Some promises turned out to hold only under a condition. Each such case has a concrete
input or run that breaks it, and a statement of when it holds:

* Overlapping reads can go back: a fresh hit that spans another caller's put stores its
  entry back after the flush (`MonotoneReads.OverlapCanGoBack`). Reads are monotone
  exactly in the runs in which, between the load and the late store of each fresh hit,
  the provider answers nothing newer for its key and completes no newer put on its path
  (`MonotoneReads.MonotoneIff`); all runs without overlapping calls are of that kind.
* Re-authentication precedes expiry exactly when the lifetime exceeds 3 s and its
  product with the ratio exceeds 2 s by a whole nanosecond, because the margin is
  truncated.
* A mock authorization code can be exchanged 300 s or more after it was issued, and a
  token honoured 3600 s or more, because only the purge at the start of a request looks at
  expiry: a slow request body comes in between. Each answer is in time exactly when the
  entry would also have survived a purge at that instant.
* A renewal loop that sees a lifetime of zero returns but stays registered, so nothing
  renews the token until `Close`.
* `Close` is undone by the reply to a renewal that was under way, and by nothing else
  short of a new authentication.
* Signing out lasts exactly when no refresh POST is outstanding.
* A channel that only `observe` uses gets no subscribe message when it is first
  observed on an open connection.
* A Helm stream that ends in a separator gains a newline on every pass; a document that
  begins with `--- # comment` is not normalised.
* Adding members to an OpenAPI document can be reported. Where pointers do not collide,
  every such addition is silent exactly when no `type` list of the older document holds an
  object, no `required` list an object or array, and path items are objects
  (`SchemaAdditions.AdditionsSilentIff`). Pointers are not escaped, so a key with a slash can
  collide with a nested key; for a document of that regular form every older document it
  extends compares silently exactly when schema nodes that share a pointer read alike
  (`SchemaCollisions.CollisionsHarmlessIff`).
* The names `A`, `a` and `A 2` are given the local names `a`, `a-2` and `a-2`.
* Acceptance of bracket strings is closed under concatenation, except that a trailing
  backslash swallows the first character of what follows.

## Model

| member | source | states |
|---|---|---|
| `SecretCache.Cache.constructor` | services/shared/secrets/cache.go:27-39 | an empty cache; a ttl or staleness limit that is not positive becomes one minute or five |
| `SecretCache.Cache.GetFresh` | services/shared/secrets/cache.go:41-53 | hits exactly when an entry is present and its expiry has not passed; a hit changes the access time only |
| `SecretCache.Cache.GetStale` | services/shared/secrets/cache.go:55-69 | serves exactly the entries whose last success is between 0 and the staleness limit back, with that age; one from this very instant always |
| `SecretCache.Cache.Set` | services/shared/secrets/cache.go:71-79 | the entry is fresh up to and including now + ttl and not after; every other entry is unchanged |
| `SecretCache.Cache.Flush` | services/shared/secrets/cache.go:81-95 | removes exactly the entries of the path, all of them for the empty path, and counts them |
| `SecretProvider.Provider.constructor` | services/shared/secrets/client.go:116-146 | a new cache with the configured limits; non-positive settings fall back, so at least one attempt and positive limits always result |
| `SecretProvider.Provider.Get` | services/shared/secrets/client.go:177-214 | the whole decision tree of a get for every reply: result, error and new cache; the second reply counts exactly after a 403 and a successful re-authentication |
| `SecretProvider.GetExactly` | services/shared/secrets/client.go:177-214 | that decision tree over the inputs alone: fresh entry, first or second reply, given value, policy denial, stale entry or error |
| `SecretProvider.SecondReadAnswers` | services/shared/secrets/client.go:194-213 | after a 403 and a successful re-authentication the value of the second read is returned and cached |
| `SecretProvider.Provider.StaleOrError` | services/shared/secrets/client.go:363-380 | a stale answer exactly for a non-critical, non-403 failure with a servable entry |
| `SecretProvider.Provider.Put` | services/shared/secrets/client.go:216-251 | the first attempt that is no conflict decides; each attempt sends the version it has just read, 0 for a path not found; at most RetryAttempts are sent; the cache is flushed exactly on success |
| `SecretProvider.SentIsRead` | services/shared/secrets/client.go:230-235 | each version sent is the one read in that attempt, or 0 when the path was not found |
| `SecretProvider.PutExactly` | services/shared/secrets/client.go:229-251 | how many versions are sent, which attempt decides, its result and error, and the cache after it |
| `ProviderRuns.UninterruptedGet` | services/shared/secrets/client.go:177-214 | whatever the provider's get may return, for all its replies, is what the steps of an uninterrupted caller return in the interleaved system, with the same cache; the reply in those steps is the first read's or, after a refusal and re-authentication, the second's |
| `ProviderRuns.PutAmongRivals` | services/shared/secrets/client.go:216-251 | whatever the provider's put may return, with any conflicts, retries and failures, is what a run of its own steps and of rival writes shows, with the same cache; attempt m sends the version at the beginning plus what rivals have added before it |
| `ProviderRuns.UninterruptedPut` | services/shared/secrets/client.go:229-240 | without rivals it succeeds at once, one version above the one it read |
| `VaultStore.AppendKeepsHistory` | services/shared/secrets/client.go:235-240 | writing now rewrites nothing that a reader could have seen up to now |
| `VaultStore.DestroyKeepsHistory` | services/shared/secrets/client.go:253-273 | destroying a version now leaves what it held up to now |
| `SecretRuns.StepKeepsHistory` | services/shared/secrets/client.go:177-251 | no step of any caller or writer changes Vault's past |
| `SecretRuns.CacheProvenance` | services/shared/secrets/cache.go:41-79 | a cached entry was there before, was loaded earlier by the same key's fresh hit, or has just been read |
| `SecretRuns.CachesStayTruthful` | services/shared/secrets/cache.go:50-51 | re-storing an entry, over whatever is there by then, keeps its value true of the instant its expiry is counted from |
| `SecretRuns.NewOutcomeTimely` | services/shared/secrets/client.go:184-213 | each answer a step gives was Vault's value within the bound of its kind |
| `SecretRuns.StalenessAlongRun` | services/shared/secrets/client.go:177-214 | the staleness invariant of caches, calls and answers holds along every run |
| `SecretRuns.BoundedStaleness` | services/shared/secrets/client.go:177-214 | in every interleaving each served value was Vault's no more than ttl (fresh), maxStaleness (stale) or 0 (direct) before; a critical get is never stale |
| `MonotoneReads.NewOutcomeInOrder` | services/shared/secrets/client.go:177-214 | unless a late store is behind, a step answers with a version no older than every earlier answer and put of that provider |
| `MonotoneReads.OrderAlongRun` | services/shared/secrets/cache.go:41-95 | the order invariant of caches, calls and answers holds along every run whose late stores are in time |
| `MonotoneReads.LateStoreShows` | services/shared/secrets/cache.go:50-52 | a late store that ignores something newer leaves answers out of order |
| `MonotoneReads.MonotoneIff` | services/shared/secrets/client.go:177-240 | in every interleaving reads never go back exactly when, between the load and the late store of each fresh hit, nothing newer is answered for its key or written to its path by the provider |
| `MonotoneReads.SequentialReadsAreMonotone` | services/shared/secrets/client.go:177-240 | without overlapping calls gets never go back and never answer older than the provider's own completed put |
| `MonotoneReads.OverwritingNewerBreaksOrder` | services/shared/secrets/cache.go:50-52 | a late store over a newer cached version has answered with a version older than one already served |
| `MonotoneReads.OverlapCanGoBack` | services/shared/secrets/cache.go:41-53 | a run in which a caller whose put has returned then reads the version before its write |
| `CheckAndSet.WritesNeverCollide` | services/shared/secrets/client.go:230-243 | no two accepted writes share a base version; each one's data is the version directly above its base |
| `CheckAndSet.VersionsAreConserved` | services/shared/secrets/client.go:230-249 | a path gains one version per outside write and one per accepted put, and none from conflicts or failures |
| `CheckAndSet.SuccessIsReal` | services/shared/secrets/client.go:235-240 | every put that reports success stands for an accepted write of the version it reports |
| `CheckAndSet.GivingUpNeedsRivals` | services/shared/secrets/client.go:241-250 | giving up needs at least RetryAttempts rival versions since the put began |
| `CheckAndSet.WritesAreBounded` | services/shared/secrets/client.go:230-249 | along any run each write of a put spends an attempt of its budget |
| `CheckAndSet.PutStopsInTime` | services/shared/secrets/client.go:230-250 | from start to end a put sends at most RetryAttempts writes |
| `RenewalDeadline.MarginBounds` | services/shared/secrets/auth.go:209-214 | in 64-bit floating point the margin of a lifetime of up to 2^53 ns lies between 0 and the lifetime, whatever the ratio |
| `RenewalDeadline.MarginIs` | services/shared/secrets/auth.go:213 | the margin reaches a whole number exactly when the floating-point product does |
| `RenewalDeadline.ProductNearShare` | services/shared/secrets/auth.go:213 | rounding moves the product to no other side of a whole number than the real share is on |
| `RenewalDeadline.MarginIsTheShare` | services/shared/secrets/auth.go:209-214 | the margin is the lifetime times the ratio, or half the lifetime for a ratio outside (0, 1), to the whole nanosecond and however the product is rounded |
| `RenewalDeadline.TokenState.ApplyTtl` | services/shared/secrets/auth.go:140-147 | a lifetime sets the expiry that far ahead and keeps the failure count |
| `RenewalDeadline.TokenState.TakeReply` | services/shared/secrets/auth.go:182-204 | what each renewal reply does to the token, and that the third failure in a row re-authenticates |
| `RenewalDeadline.TokenState.RenewalLoop` | services/shared/secrets/auth.go:158-207 | the loop makes exactly the attempts of the specification, at its instants |
| `RenewalDeadline.FirstRenewalAt` | services/shared/secrets/auth.go:158-173 | the first attempt comes that share before expiry, but no sooner than a second from now |
| `RenewalDeadline.RefusedExactly` | services/shared/secrets/auth.go:182-194 | what a refusal leaves of the token, with the lifetime of the re-authentication from the third in a row on |
| `RenewalDeadline.ReauthenticatesOnTime` | services/shared/secrets/auth.go:158-194 | three refusals re-authenticate exactly at max(s + 1 s, s + ttl - margin) + 2 s, not before |
| `RenewalDeadline.EarlierFailuresHasten` | services/shared/secrets/auth.go:183-193 | failures left over from before only bring that instant forward |
| `RenewalDeadline.BeforeExpiryIff` | services/shared/secrets/auth.go:169-172 | the instant precedes expiry exactly when ttl exceeds 3 s and the floating-point product is at least 2 s + 1 ns |
| `RenewalDeadline.BeforeExpiryByShare` | services/shared/secrets/auth.go:169-214 | a share of the lifetime of 2 s + 1 ns is enough, and one of 2 s is not, however the product is rounded; the share is ttl * ratio, or ttl / 2 for a ratio outside (0, 1) |
| `RenewalDeadline.TwoSecondsAreNotEnough` | services/shared/secrets/auth.go:209-214 | a lifetime and ratio with a share above 2 s whose re-authentication comes at expiry |
| `RenewalDeadline.EveryLifetimeIsGuarded` | services/shared/secrets/auth.go:158-207 | after any prefix of replies that ends in a renewal, the deadline of that lifetime holds |
| `RenewalLoops.Registry.ApplyTtl` | services/shared/secrets/auth.go:140-147 | a renewable lifetime starts a loop unless one is registered |
| `RenewalLoops.Registry.StartRenewalLoop` | services/shared/secrets/auth.go:149-156 | no second loop while one is registered |
| `RenewalLoops.Registry.CloseProvider` | services/shared/secrets/auth.go:245-256 | cancels the registered loop and unregisters it |
| `RenewalLoops.AtMostOneLoop` | services/shared/secrets/auth.go:114-207 | in every run at most one loop has an uncancelled context, and it is the registered one |
| `RenewalLoops.StrandedExactlyWhen` | services/shared/secrets/auth.go:160-168 | renewal is stranded exactly when the registered loop looks at a lifetime that is not positive |
| `RenewalLoops.StrandingHappens` | services/shared/secrets/auth.go:160-168 | a run that strands renewal: a renewable lifetime of zero |
| `RenewalLoops.StrandedUntilClose` | services/shared/secrets/auth.go:149-168 | from then on no event but Close restarts it |
| `RenewalLoops.CloseCanBeUndone` | services/shared/secrets/auth.go:196-204 | a run in which a reply under way starts a new loop after Close |
| `RenewalLoops.ClosedStays` | services/shared/secrets/auth.go:245-256 | with no renewal under way every loop stays cancelled, until a new authentication |
| `RenewalLoops.CloseIsFinalIff` | services/shared/secrets/auth.go:149-256 | after Close no loop starts, short of authentication, exactly when no renewal was under way |
| `WebSocketClient.Client.constructor` | apps/web/lib/ws.ts:14-22 | a disconnected client with nothing subscribed and no timer |
| `WebSocketClient.Client.Connect` | apps/web/lib/ws.ts:28-34 | opens a socket unless one is connected or connecting; a retry reports "reconnecting" |
| `WebSocketClient.Client.Send` | apps/web/lib/ws.ts:107-119 | a message goes out exactly when connected with a socket |
| `WebSocketClient.Client.OnOpen` | apps/web/lib/ws.ts:36-42 | the attempt counter is reset and every registered channel is subscribed again |
| `WebSocketClient.Client.OnError` | apps/web/lib/ws.ts:52-54 | the state becomes disconnected and the socket is kept |
| `WebSocketClient.Client.OnClose` | apps/web/lib/ws.ts:56-60 | the socket is dropped and a reconnection scheduled |
| `WebSocketClient.Client.ScheduleReconnect` | apps/web/lib/ws.ts:136-142 | no second timer while one is pending |
| `WebSocketClient.Client.OnTimer` | apps/web/lib/ws.ts:142-146 | the timer is cleared, the attempt counted, and the client connects |
| `WebSocketClient.Client.SubscribeTo` | apps/web/lib/ws.ts:75-82 | the handler is added, and a message sent at once while connected |
| `WebSocketClient.Client.ObserveOn` | apps/web/lib/ws.ts:93-96 | the handler is added and nothing is sent |
| `WebSocketClient.Client.UnsubscribeFrom` | apps/web/lib/ws.ts:84-90 | the handler is removed, and the channel with its last handler |
| `WebSocketClient.OneLinkAlways` | apps/web/lib/ws.ts:28-61 | in every run exactly one of a live socket and a pending timer exists; connected means that socket is open |
| `WebSocketClient.StateIsOfLastEvent` | apps/web/lib/ws.ts:28-60 | in every run the state is connecting at first, and then that of the last timer, open, error or close; the attempts counted are the timers since the last open |
| `WebSocketClient.SocketsCount` | apps/web/lib/ws.ts:28-34 | in every run one socket is opened at first and one by each timer |
| `WebSocketClient.RegistryIsExact` | apps/web/lib/ws.ts:75-105 | the map of handlers is what the calls so far add up to |
| `WebSocketClient.MessagesAreExact` | apps/web/lib/ws.ts:36-42 | the messages on the current socket are exactly those for channels registered when it opened or subscribed since |
| `WebSocketClient.ConnectedMeansSubscribed` | apps/web/lib/ws.ts:28-91 | while connected every channel with a subscribed handler has had its message on the current socket |
| `WebSocketClient.ObservedChannelCanBeSilent` | apps/web/lib/ws.ts:93-96 | a run in which an observed channel gets no message |
| `WebSocketClient.SilentExactlyWhen` | apps/web/lib/ws.ts:75-105 | exactly which channels have had a message on the current socket |
| `WebSocketClient.DelayClosedForm` | apps/web/lib/ws.ts:12 | the delay table is min(1000 * 2^k, 30000) for every k |
| `WebSocketClient.BackoffForm` | apps/web/lib/ws.ts:136-147 | a pending timer after k + 1 closes without an open waits min(1000 * 2^k, 30000) ms |
| `AuthRefresh.RefreshModule.RefreshAccessToken` | apps/web/lib/auth.ts:26-45 | joins the refresh in flight, or posts the stored token, or signs out when there is none |
| `AuthRefresh.RefreshModule.OnReply` | apps/web/lib/auth.ts:47-58 | a refusal signs out; a good reply stores its tokens |
| `AuthRefresh.RefreshModule.OnResume` | apps/web/lib/auth.ts:60-64 | a caller gets the settled outcome; only the leader clears the slot |
| `AuthRefresh.StoreExactly` | apps/web/store/auth-store.ts:53-74 | user, tokens and sign-in flag after each event |
| `AuthRefresh.PostExactly` | apps/web/lib/auth.ts:26-45 | a call posts the stored refresh token exactly when none is in flight and there is one that is not empty |
| `AuthRefresh.StoreHoldsLatest` | apps/web/store/auth-store.ts:53-74 | in every run both tokens in the store are those of the last reply or sign-in, unless cleared since |
| `AuthRefresh.AtMostOneRefresh` | apps/web/lib/auth.ts:26-65 | in every run at most one POST is outstanding, and it is the one in the slot |
| `AuthRefresh.CallersAgree` | apps/web/lib/auth.ts:27-29 | all callers of one refresh get the same outcome, whenever they resume |
| `AuthRefresh.ReplacedTokenNeverPosted` | apps/web/lib/auth.ts:31-58 | a token whose reply was stored is never posted or stored again, for a server that does not reissue it |
| `AuthRefresh.SignedOutStays` | apps/web/store/auth-store.ts:74 | with no POST outstanding nothing but a sign-in ends a sign-out |
| `AuthRefresh.ReplyUndoesSignOut` | apps/web/store/auth-store.ts:53-59 | the reply to an outstanding POST authenticates a signed-out store |
| `AuthRefresh.SignOutCanBeUndone` | apps/web/lib/auth.ts:39-57 | a run in which the reply to a refresh signs the browser in again after a sign-out |
| `AuthRefresh.SignOutLastsIff` | apps/web/store/auth-store.ts:53-74 | signing out lasts exactly when no POST is outstanding |
| `ApiDriver.BoundsFrom` | apps/web/lib/api.ts:151-210 | fetches, refreshes and waiting are bounded from every attempt on |
| `ApiDriver.CallIsBounded` | apps/web/lib/api.ts:20-210 | at most 5 fetches, 4 refreshes and 7000 ms; 2, 1 and 0 with skipRetry; no refresh with skipAuth |
| `ApiDriver.WaitsFrom` | apps/web/lib/api.ts:20-205 | from every attempt on, the waits are the table from there on, in order |
| `ApiDriver.WaitsInOrder` | apps/web/lib/api.ts:20-205 | a call waits 1000, then 2000, then 4000 ms, as far as it gets; with skipRetry not at all |
| `ApiDriver.VisitsAscend` | apps/web/lib/api.ts:184-205 | the (attempt, refreshed) pairs strictly ascend, so none is visited twice |
| `ApiDriver.ResultReflectsLastFetch` | apps/web/lib/api.ts:175-208 | for every result, exactly which answers to the last fetch, and to the refresh it called for, it comes from; the store is cleared exactly on a 401 that counts, and then the last fetch came after a refresh |
| `ApiDriver.RefreshBoundIsReached` | apps/web/lib/api.ts:184-205 | four refreshes, four fetches and 7000 ms do occur |
| `ApiDriver.FetchBoundIsReached` | apps/web/lib/api.ts:184-205 | five fetches do occur |
| `HelmValues.PopTo` | scripts/aggregate-helm-docs.py:26-27 | pops exactly the entries from the top that are indented as much or more |
| `HelmValues.TakeRow` | scripts/aggregate-helm-docs.py:26-31 | one row: the popped and pushed stack, and its report if it has a value |
| `HelmValues.ExtractValues` | scripts/aggregate-helm-docs.py:13-32 | the extractor computes the report of the parsed lines |
| `HelmValues.ChainAscends` | scripts/aggregate-helm-docs.py:26-27 | indents strictly increase along the chain that the stack is |
| `HelmValues.StackIsNearestChain` | scripts/aggregate-helm-docs.py:26-31 | for any input, the stack after a row is its chain of nearest earlier rows with smaller indent |
| `HelmValues.ReportedUnderChain` | scripts/aggregate-helm-docs.py:28-30 | a value is reported under the dotted keys of that chain |
| `HelmValues.LineRoundTrip` | scripts/aggregate-helm-docs.py:10-25 | a printed key line is read back as its indent, key and value |
| `HelmValues.KeyLineIsRead` | scripts/aggregate-helm-docs.py:10-25 | white space, a key of letters, digits, underscores, dots and hyphens, and a colon are read as indent, key and trimmed rest |
| `HelmValues.ReadLineIsKeyLine` | scripts/aggregate-helm-docs.py:10-25 | no other line is read |
| `HelmValues.DottedIs` | scripts/aggregate-helm-docs.py:28-30 | keys are joined by dots |
| `HelmValues.RoundTrip` | scripts/aggregate-helm-docs.py:13-32 | printing any mapping tree with any indent step and extracting yields its leaves in preorder with dotted paths |
| `Brackets.Balanced` | scripts/ci/check_observability_dashboards.py:122-144 | accepts exactly when what is left outside quotes and escapes is a word of the bracket grammar and the last quote is closed |
| `Brackets.MatchIsGrammar` | scripts/ci/check_observability_dashboards.py:139-144 | the stack empties exactly on the words the grammar derives |
| `Brackets.ThreeKinds` | scripts/ci/check_observability_dashboards.py:123 | the grammar has the empty word and the three pairs around balanced words, followed by balanced words |
| `Brackets.NothingElse` | scripts/ci/check_observability_dashboards.py:123 | and no other word |
| `Brackets.ReadingOn` | scripts/ci/check_observability_dashboards.py:126-138 | what counts, character by character: a backslash takes the next one with it, quotes open and close, and only brackets outside them are kept |
| `Brackets.DerivedMatches` | scripts/ci/check_observability_dashboards.py:139-144 | every derived word leaves any stack as it was |
| `Brackets.Decompose` | scripts/ci/check_observability_dashboards.py:139-144 | a word that matches decomposes into derivations, one per open bracket and one more |
| `Brackets.Concatenation` | scripts/ci/check_observability_dashboards.py:127-144 | after an accepted string a continuation is accepted exactly when it is on its own, less the character a pending escape swallows |
| `Brackets.PendingEscapeBreaksClosure` | scripts/ci/check_observability_dashboards.py:128-133 | two accepted strings whose concatenation is not accepted |
| `SchemaDiff.ComparePaths` | ci/schema_diff.py:51-64 | exactly the removed paths and operations, or an exception exactly for a shared path item that is no object |
| `SchemaDiff.CompareNodes` | ci/schema_diff.py:66-81 | exactly the type changes and newly required fields at shared pointers, or an exception exactly for unhashable required items |
| `SchemaDiff.DetectBreakingChanges` | ci/schema_diff.py:48-83 | exactly the changes of the specification, and exactly when the detector raises |
| `SchemaDiffLaws.RemovedPathIff` | ci/schema_diff.py:51-55 | a removed path is reported exactly when the older document has it and the newer has not |
| `SchemaDiffLaws.RemovedOperationIff` | ci/schema_diff.py:56-64 | a removed operation is reported exactly when both documents have the path, the verb is one of the eight, and the older item has an object for it where the newer has none |
| `SchemaDiffLaws.TypeChangedIff` | ci/schema_diff.py:66-76 | a type change is reported exactly between looked-up nodes that both have a type, and different ones |
| `SchemaDiffLaws.NewRequiredIff` | ci/schema_diff.py:77-81 | a newly required field is reported exactly when the newer looked-up node lists it and the older does not |
| `SchemaDiffLaws.SchemaTypeIs` | ci/schema_diff.py:36-45 | a string type, or the joined parts of a list, or else the reference |
| `SchemaDiffLaws.SchemaNodeIff` | ci/schema_diff.py:23-33 | a schema node is an object with one of eight keys |
| `SchemaDiffLaws.RaisesIff` | ci/schema_diff.py:56-81 | the detector raises exactly on a shared path whose item is no object in one of the documents, or a looked-up node that requires a composite value |
| `SchemaDiffLaws.AdditionsAreSilent` | ci/schema_diff.py:48-83 | members added at any depth, none named "type" or "required", are never reported when no type list of the older document holds an object, no required list a composite value, its path items are objects, and the newer pointers do not collide |
| `SchemaAdditions.AdditionsSilentIff` | ci/schema_diff.py:36-83 | for a document whose pointers do not collide, every collision-free extension is silent exactly when the document is of that form |
| `SchemaAdditions.ObjectTypeShows` | ci/schema_diff.py:38-39 | otherwise: giving every object one more member is reported at a type list that holds one |
| `SchemaAdditions.TextGrows` | ci/schema_diff.py:38-39 | an object prints longer once it has gained a member |
| `SchemaCollisions.CollisionsHarmlessIff` | ci/schema_diff.py:66-81 | for a document of that form, with collisions or without, every older document it extends compares silently exactly when nodes that share a pointer read alike |
| `SchemaCollisions.UnlikeShows` | ci/schema_diff.py:66-81 | otherwise: a reordering of the document is reported |
| `SchemaCollisions.PromotedIsFound` | ci/schema_diff.py:23-33 | any schema node can be made the one its pointer is looked up to, by reordering objects alone |
| `SchemaDiffLaws.CompositeTypeIsReported` | ci/schema_diff.py:38-39 | an addition inside a type list that holds an object is reported, without any collision |
| `SchemaDiffLaws.CollisionIsReported` | ci/schema_diff.py:28-29 | with colliding pointers mere reordering is reported |
| `SchemaDiffLaws.SlashFreeIsCollisionFree` | ci/schema_diff.py:23-33 | without slashes in keys no two schema nodes share a pointer |
| `SchemaDiffLaws.PointerInjective` | ci/schema_diff.py:28-32 | slash-free places are determined by their pointer |
| `SchemaDiffLaws.NodeReportIff` | ci/schema_diff.py:66-81 | a node change is reported exactly when it is one between the nodes its pointer is looked up to |
| `SchemaDiffLaws.LookedUpChangesAreReported` | ci/schema_diff.py:66-81 | so all changes between two looked-up nodes are reported |
| `SchemaDiffLaws.SharedChangesAreReported` | ci/schema_diff.py:66-81 | every type change and newly required field at a shared schema node is reported, without collisions |
| `SchemaDiffLaws.ReportsAreReal` | ci/schema_diff.py:66-81 | every reported node change is one at a shared place, unless schema nodes at different places of the two documents share a pointer |
| `SchemaDiffLaws.SlashFreePointersAgree` | ci/schema_diff.py:23-33 | in slash-free documents they do not |
| `DocumentStream.SplitDocuments` | scripts/normalize-helm-snapshot.py:97-108 | the loop over separators computes the parts of the specification |
| `DocumentStream.SplitIsLossless` | scripts/normalize-helm-snapshot.py:97-108 | joining the parts gives the stream back, plus a newline exactly when it ends in a separator |
| `DocumentStream.EndsInSeparatorIff` | scripts/normalize-helm-snapshot.py:103-107 | that is, when some separator is followed by blank lines only |
| `DocumentStream.RewriteClosedForm` | scripts/normalize-helm-snapshot.py:111-119 | splitting, rewriting and joining rewrites every line by the lines between the separators around it |
| `StreamLaws.AlikeStreams` | scripts/normalize-helm-snapshot.py:111-119 | two streams of the same shape whose lines are rewritten alike have the same output |
| `StreamLaws.RewritingAgain` | scripts/normalize-helm-snapshot.py:111-119 | a second pass changes nothing but one more newline after a final separator |
| `HelmSnapshot.MaskDocument` | scripts/normalize-helm-snapshot.py:67-94 | the two in-place passes mask every line on its own |
| `HelmSnapshot.NormalizeDoc` | scripts/normalize-helm-snapshot.py:53-94 | only documents of a known secret are masked; a masked last line gets its newline |
| `HelmSnapshot.NormalizeText` | scripts/normalize-helm-snapshot.py:111-119 | the script normalises part by part as specified |
| `HelmSnapshotLaws.MaskSettles` | scripts/normalize-helm-snapshot.py:70-92 | masking a masked line changes nothing, and an untouched line is unchanged |
| `HelmSnapshotLaws.SecretStable` | scripts/normalize-helm-snapshot.py:53-65 | masking never changes which secret a document is read as |
| `HelmSnapshotLaws.SplitLosslessIff` | scripts/normalize-helm-snapshot.py:97-108 | splitting and joining is lossless exactly when the text does not end in a separator |
| `HelmSnapshotLaws.EveryOtherLinePasses` | scripts/normalize-helm-snapshot.py:53-119 | line by line, only volatile lines of a secret change, each to its mask |
| `HelmSnapshotLaws.EndingGrows` | scripts/normalize-helm-snapshot.py:103-107 | a text that gains a newline on every pass |
| `HelmSnapshotLaws.NormalizeTwiceIff` | scripts/normalize-helm-snapshot.py:97-119 | normalising twice is normalising once exactly when the text does not end in a separator |
| `HelmSnapshotLaws.NonInterference` | scripts/normalize-helm-snapshot.py:53-119 | texts that differ only in volatile values, quoted alike, or in MinIO export lines have the same output |
| `HelmMasking.VolatileLineIsMasked` | scripts/normalize-helm-snapshot.py:53-82 | in a document of kind Secret with one of the known names, an indented line of a volatile key becomes the key with its quoted placeholder, for each of the eight pairs |
| `HelmMasking.ExportLineIsMasked` | scripts/normalize-helm-snapshot.py:84-92 | in the MinIO root credentials an export line becomes the export of the placeholder at its indent |
| `HelmMasking.OtherLinePasses` | scripts/normalize-helm-snapshot.py:67-94 | every other line of such a document passes |
| `HelmMasking.OtherKindPasses` | scripts/normalize-helm-snapshot.py:53-65 | a document of any other kind passes |
| `HelmMasking.ValuesDoNotShow` | scripts/normalize-helm-snapshot.py:33-119 | texts that differ only in the values of those lines, quoted alike, and in export lines normalise to the same text |
| `HelmMasking.RenderedSecret` | scripts/normalize-helm-snapshot.py:53-82 | a rendered secret in which any value of the key is masked |
| `HelmSnapshotLaws.CommentedSecretPasses` | scripts/normalize-helm-snapshot.py:114-117 | a text whose secret key is not masked |
| `HelmSnapshotLaws.CommentedSeparatorPasses` | scripts/normalize-helm-snapshot.py:114-117 | wherever it is in a text, a document whose first text begins with hyphens on a line that is no separator passes line by line |
| `SecretWalk.PopBlocked` | apps/ops-cli/secrets-migrate.py:67-74 | a directory that cannot be listed is found itself, and the walk's accounting stays exact |
| `SecretWalk.PopListed` | apps/ops-cli/secrets-migrate.py:75-79 | listing a directory finds its files and adds its subdirectories, each pending once |
| `SecretWalk.LessAhead` | apps/ops-cli/secrets-migrate.py:66-79 | every step leaves fewer places ahead, so the walk ends |
| `SecretMigration.Vault.constructor` | apps/ops-cli/secrets-migrate.py:24-29 | a store, the directories that may not be listed, and the paths that are read back wrong |
| `SecretMigration.Vault.ListSecrets` | apps/ops-cli/secrets-migrate.py:68-75 | the entries directly below a directory, each once; an exception exactly when it is denied or empty |
| `SecretMigration.Vault.Expand` | apps/ops-cli/secrets-migrate.py:75-79 | files are found and subdirectories pushed, in the order listed |
| `SecretMigration.Vault.Walk` | apps/ops-cli/secrets-migrate.py:63-80 | terminates and returns each visible secret and each unlistable directory exactly once |
| `SecretMigration.Vault.Copy` | apps/ops-cli/secrets-migrate.py:32-58 | one path: skipped, counted, copied, an exception exactly when it holds no secret, or a failure exactly when the copy is read back wrong |
| `SecretMigration.Vault.RunPaths` | apps/ops-cli/secrets-migrate.py:30-60 | the copy loop leaves the store, count and exit of the specification |
| `SecretMigration.Vault.Migrate` | apps/ops-cli/secrets-migrate.py:29-60 | however it ends only targets change, each to its source's value; over a listable root it fails exactly when some copy is read back wrong, and otherwise all movable secrets are copied and counted; a dry run changes nothing |
| `SecretMigration.ListableFindsAll` | apps/ops-cli/secrets-migrate.py:63-80 | under a listable root the walk sees every secret below it and nothing else |
| `SecretMigration.TargetInverts` | apps/ops-cli/secrets-migrate.py:32-36 | a target determines its source and is never eligible itself |
| `SecretMigration.TargetsDiffer` | apps/ops-cli/secrets-migrate.py:36 | different secrets have different targets |
| `SecretMigration.MovableIff` | apps/ops-cli/secrets-migrate.py:32-36 | what is moved: paths below the root with a resource and a domain that is neither empty, "tenants" nor "_platform" |
| `SecretMigration.TargetIs` | apps/ops-cli/secrets-migrate.py:36 | where it is moved: to the default tenant below the root |
| `SecretMigration.MigratedExactly` | apps/ops-cli/secrets-migrate.py:32-49 | each such secret is kept and copied there with its value |
| `SecretMigration.OthersUntouched` | apps/ops-cli/secrets-migrate.py:29-60 | every path that is no such copy is as it was, present or absent |
| `SecretMigration.RunIsConservative` | apps/ops-cli/secrets-migrate.py:30-60 | the same, for the copy loop over any result of the walk |
| `SecretMigration.MigrationPreserves` | apps/ops-cli/secrets-migrate.py:41-49 | legacy secrets keep their values and each has an equal copy |
| `SecretMigration.SecondRunChangesNothing` | apps/ops-cli/secrets-migrate.py:29-60 | a second run moves the same secrets and leaves every value |
| `SecretMigration.SecondRunKeepsStore` | apps/ops-cli/secrets-migrate.py:29-60 | after a run over a listable root a second one leaves the store as it is at every point, even if it cannot list the new directories or stops early |
| `MockOidc.Server.constructor` | services/mock-google-oidc/server.py:30-34 | three empty dictionaries |
| `MockOidc.Server.Cleanup` | services/mock-google-oidc/server.py:53-57 | removes exactly the entries whose expiry has come |
| `MockOidc.Server.Start` | services/mock-google-oidc/server.py:89-92 | a request begins by purging the three dictionaries |
| `MockOidc.Server.Respond` | services/mock-google-oidc/server.py:93-225 | it is answered from the dictionaries as they are then, whatever other threads have done |
| `MockOidc.Server.Handle` | services/mock-google-oidc/server.py:89-225 | a request that no other comes between |
| `MockOidc.AnswerIsSound` | services/mock-google-oidc/server.py:99-164 | each answer is backed by earlier records of the run |
| `MockOidc.InvAlongRun` | services/mock-google-oidc/server.py:89-230 | in every interleaving of threads each code, token and answer is backed by the requests that led to it, and nothing held had expired when a waiting request purged |
| `MockOidc.PurgedWhenBegun` | services/mock-google-oidc/server.py:89-92 | the purge that an answer relies on is that of its own request |
| `MockOidc.CodesAreOneTime` | services/mock-google-oidc/server.py:197-200 | a code is exchanged at most once |
| `MockOidc.IssuedOnce` | services/mock-google-oidc/server.py:108-114 | no code or token is issued twice, so the request it stems from is the only one |
| `MockOidc.ExchangedInTimeIff` | services/mock-google-oidc/server.py:189-207 | an exchange purges less than 300 s after its authorize request; it answers within 300 s exactly when the code would survive a purge at that instant, and is late by no more than the time it took |
| `MockOidc.ExchangeIff` | services/mock-google-oidc/server.py:189-207 | in every run a code is exchanged exactly when it was issued, no exchange has used it, and no request has begun 300 s or more after |
| `MockOidc.ReportIff` | services/mock-google-oidc/server.py:123-164 | in every run a token of either kind is reported on exactly when it was issued and no request has begun 3600 s or more after |
| `MockOidc.LoginExactly` | services/mock-google-oidc/server.py:38-50 | a login names a seeded user, or a derived one in lower case if it is of 1 to 81 permitted characters, or nobody |
| `MockOidc.AuthorizedIff` | services/mock-google-oidc/server.py:99-121 | an authorize request is granted, with its client and nonce, exactly when its login names somebody |
| `MockOidc.ExchangeCanBeLate` | services/mock-google-oidc/server.py:190-198 | a run that exchanges a code 1001 s after it was issued |
| `MockOidc.ReportsAreAuthentic` | services/mock-google-oidc/server.py:123-144 | aud, nonce and sub of an id token are those of its authorize request; the report purges less than 3600 s after the exchange, and answers within them exactly when the token would survive a purge at that instant |
| `MockOidc.UserInfoIsAuthentic` | services/mock-google-oidc/server.py:146-164 | the subject of an access token is that of its authorize request, with the same lifetime |
| `MockOidc.ReportCanBeLate` | services/mock-google-oidc/server.py:89-92 | runs that report on a token of either kind after more than 3600 s |
| `FqnBackfill.CollapseShape` | apps/control-plane/migrations/versions/041_fqn_backfill.py:51-70 | a slug is lower-case letters, digits and single hyphens |
| `FqnBackfill.SlugFrom` | apps/control-plane/migrations/versions/041_fqn_backfill.py:51-70 | a slug is made from the display name, else the local name, else "agent"; an empty name counts as none |
| `FqnBackfill.CollapseRuns` | apps/control-plane/migrations/versions/041_fqn_backfill.py:54-65 | letters in lower case and digits stay, and each run of anything else is one hyphen |
| `FqnBackfill.CollapseIdempotent` | apps/control-plane/migrations/versions/041_fqn_backfill.py:54-65 | slugging a slug changes nothing |
| `FqnBackfill.RanksDiffer` | apps/control-plane/migrations/versions/041_fqn_backfill.py:71-94 | profiles of one workspace and slug have different ranks |
| `FqnBackfill.RankReached` | apps/control-plane/migrations/versions/041_fqn_backfill.py:71-94 | every rank from 1 to the size of the group is some profile's |
| `FqnBackfill.SuffixInjective` | apps/control-plane/migrations/versions/041_fqn_backfill.py:118-126 | a suffixed name determines its slug and number |
| `FqnBackfill.NamesAreFreeIff` | apps/control-plane/migrations/versions/041_fqn_backfill.py:46-139 | assigned names are pairwise distinct and free exactly when no suffixed name to be handed out is taken or is a slug |
| `FqnBackfill.UpgradeKeepsNamesUnique` | apps/control-plane/migrations/versions/041_fqn_backfill.py:132-139 | unique names stay unique exactly under that condition, and no live profile is left without a namespace |
| `FqnBackfill.UpgradedExactly` | apps/control-plane/migrations/versions/041_fqn_backfill.py:71-139 | what each row becomes, the number counted from the names taken and the profiles created no later, ties by id |
| `FqnBackfill.EarlierIsSmaller` | apps/control-plane/migrations/versions/041_fqn_backfill.py:71-94 | of two profiles with the same slug the one created earlier, or with the smaller id, gets the smaller number |
| `FqnBackfill.NoNumberedNamesSuffices` | apps/control-plane/migrations/versions/041_fqn_backfill.py:46-139 | names are free when no slug or taken name is another slug plus a number |
| `FqnBackfill.NumberedNameClashes` | apps/control-plane/migrations/versions/041_fqn_backfill.py:118-126 | three profiles that are given the names a, a-2 and a-2 |
| `Decimals.DecimalRoundTrip` | apps/control-plane/migrations/versions/041_fqn_backfill.py:123-125 | reading a decimal numeral gives the number back |
| `EnvMerge.Update` | scripts/generate-env-docs.py:448-457 | one entry absorbed into another by the update rules |
| `EnvMerge.CollectByName` | scripts/generate-env-docs.py:441-457 | the dictionary holds, per name seen, the fold of its entries in order |
| `EnvMerge.SortEntries` | scripts/generate-env-docs.py:458 | the values in order of lower-cased component and name |
| `EnvMerge.MergeEntries` | scripts/generate-env-docs.py:440-458 | one entry per name, the fold of its group, sorted |
| `EnvMerge.FoldClosedForm` | scripts/generate-env-docs.py:448-457 | component and description of the first placed entry, the first non-empty default, the union of sources, required and sensitive exactly when some entry is |
| `EnvMerge.OrderDoesNotMatter` | scripts/generate-env-docs.py:443-457 | sources, need and sensitivity do not depend on the order of the input |
| `EnvMerge.SortedIsUnique` | scripts/generate-env-docs.py:458 | a sorted list is determined by its members |
| `EnvMerge.LexLessIff` | scripts/generate-env-docs.py:458 | strings compare by their first difference, or by length |
| `EnvMerge.MergeOrder` | scripts/generate-env-docs.py:458 | a merge is in order of the component in lower case, and of the name where that is the same |
| `EnvMerge.MergeExactly` | scripts/generate-env-docs.py:440-458 | every field of each merged entry, from the entries of its name in the input |
| `EnvMerge.MergeCovers` | scripts/generate-env-docs.py:440-458 | no name of the input is missing |
| `EnvMerge.MergeHasDistinctNames` | scripts/generate-env-docs.py:440-458 | no name occurs twice in a merge |
| `EnvMerge.MergingAgainChangesNothing` | scripts/generate-env-docs.py:440-458 | merging a merged list gives it back |

## Left out

- Secret provider: path validation, metrics, log lines, signal handling, Vault's HTTP and the reading of token files are inputs or absent; listing versions, health checks, self-revocation and `DeleteVersion` as a provider call are not modelled (other writers may destroy versions).
- Secret provider: a flush inside a run is one step; partial progress of a concurrent range over the map is covered only by evictions of arbitrary key sets. The clock never goes back. A write whose reply is lost counts as not delivered.
- SecretRuns.BoundedStaleness: the bound of a fresh hit is counted back from the instant of its freshness check, which is the last instant at which the program looks at the expiry.
- Token renewal: replies arrive at once; floating point is real arithmetic with a rounding that keeps order and is exact on small whole and half numbers; the memory of recent failures is absent.
- RenewalDeadline.MarginBounds: does not promise a margin strictly below the lifetime, since rounding can reach it, nor any bound for lifetimes above 2^53 ns, which are rounded themselves.
- `ws.ts`: `disconnect()`, a second `connect()` by the application, incoming messages and state-change handlers.
- `auth-store.ts` and `auth.ts`: hydration and persistence, the loading flag, `setUser`, and the redirect to the login page.
- `api.ts`: headers, bodies and the normalisation of error payloads.
- `scripts/aggregate-helm-docs.py`: rendering, and the discovery of charts.
- `scripts/normalize-helm-snapshot.py`: text is given by its lines between newline characters; other characters that end a line for Python (carriage return, vertical tab, form feed, the Unicode separators) are taken as ordinary white space.
- HelmSnapshotLaws.NonInterference: two differing export lines have the same indent, and the second is a `kind:` or `name:` header, or begins with hyphens, only if the first does; otherwise the lines differ in more than a value, and may change which secret the document is read as.
- HelmMasking.ValuesDoNotShow: differing export lines begin, after their indent, with `export`; `HelmSnapshotLaws.NonInterference` is the form for the others.
- `ci/schema_diff.py`: the order and the wording of reports, exceptions from sorting fields of different kinds, and Python's printed form of nested values in a type list, which is approximated.
- `apps/ops-cli/secrets-migrate.py`: paths are lists of segments, and the order of a listing is arbitrary; a copy that is read back wrong was still written.
- `services/mock-google-oidc/server.py`: a purge is one step with one reading of the clock, and so is an answer with its tokens; the error that Python raises when another thread changes a dictionary under a purge is absent; the name-based hash behind a derived subject stays symbolic, and the other endpoints are a single refusal.
- `041_fqn_backfill.py`: letters outside ASCII, the creation of the default namespaces, the qualified name beside the local one, and the re-index statement.
- `scripts/generate-env-docs.py`: the parsers and the rendering; components are lower-cased in ASCII.
- The other migrations, the mock GitHub server, the scan normaliser, the user interface and the service wiring: field picking, declarations and glue with no algorithm of their own.
