# Zentora service: a verified model

This project models the protocols, state machines and algorithms of the Zentora e-commerce service
in Dafny and proves what they promise. Postgres tables are maps of rows, a transaction is a table
that is committed or dropped, Redis is a map from keys to values with an expiry, and a clock does not
go back. `dafny verify dfyconfig.toml` checks everything.

| files | part of the service |
|---|---|
| `SessionStore`, `SessionProtocol`, `SessionRevival`, `LogoutFinality`, `DelayedLogouts`, `LogoutAllFinality`, `SessionManager` | sessions in Redis and Postgres, logout, revocation, token checks, background re-writes |
| `Inventory`, `StockTransactions`, `OrderPlacement` | guarded stock updates, interleaved transactions, placing an order |
| `CategoryTree`, `CategoryTriggers`, `CategoryService` | the category forest, the closure-table trigger, the cycle guard |
| `FeedRequest`, `FeedCacheKey`, `TextlessKeys`, `FeedService` | discovery feeds: validation, the printed cache key, fallbacks, the cache |
| `Sql`, `OrderQuery`, `StorefrontTables`, `CatalogQuery`, `EligibleQuery` | built WHERE clauses with numbered placeholders, and the two product filters |
| `FeedImages`, `FeedGenerator`, `Pricing`, `Money` | the merchant feed: images, keyset pagination, sale prices, prices and shipping as text |
| `Hub`, `ImageScheduler`, `RateLimiter`, `EmailVerification` | WebSocket hub, bounded image processing, rate limits, verification codes |
| `Homepage` | homepage sections and their two cache levels |
| `Text`, `Common` | the string functions used above, result types |

Objects the service updates in place are classes; concurrency (sessions, stock, images) is a state
machine whose steps interleave freely. Where a promise fails, the model keeps the code's behaviour,
a lemma gives the failing case, and another says exactly when the promise holds:

- Logout and RevokeSession blacklist the token for one Ttl. A check of the token that starts after they
  have returned accepts it only if it reads the blacklist after the token's own expiry, in every run
  (`LateAcceptsOutliveToken`); so a check that reads one clock value never does
  (`PromptChecksAreNeverLate`). Slower checks can: a session's Redis entry is SET with a TTL computed
  before, so a SET that lands late outlives the blacklist. For every delay, however small, some run
  with that delay, whose commands all succeed, ends in such an acceptance (`DelayedSetExample`). With
  SETs delayed at will, a first logout is final exactly when the token has expired or no session of it
  is left (`FinalDespiteDelaysExactly`). If every SET lands at the clock value its TTL was computed with,
  logouts are final exactly when they begin after the login has computed the session's expiry, or after
  the token has expired (`LogoutFinalExactly`); of a token handed to its caller the first always holds
  (`HandedIsSettled`);
- LogoutAllSessions touches nothing of other identities (`OtherIdentitiesStay`) and does not blacklist.
  When its UPDATE has succeeded, a token of the identity that still verifies stays refused exactly when no
  live Redis entry of it is left and no login, activity update or restore is pending that can still write
  one (`LogoutAllFinalExactly`). So a DEL that failed, about which success is reported all the same, and a
  write under way each leave a token that is accepted again (`FailedDeleteIsNotFinal`,
  `PendingWriteIsNotFinal`, `PendingLoginIsNotFinal`);
- a feed run with `InStockOnly` stops at the first batch that the stock filter thins out
  (`CompleteExactly`, `StockFilterStopsEarly`), because the batch limit is applied before it;
- a feed cache key identifies a request up to the order of its filter ids exactly as far as it prints
  it (`KeyShowsRequest`): requests whose numbers print alike share a key (`RoundedPriceCollides`), and
  so do requests whose queries differ only in case (`QueryCaseCollides`). A colon in a session or a
  query can make two requests share one (`ColonSessionCollides`, `ColonQueryCollides`), and the second
  then gets the first one's feed (`SharedKey`). A request with neither texts nor numbers shares its key
  with no other, whatever texts others carry (`TextlessKeyIsExact`);
- a failed cache deletion leaves a wrong page exactly when the write changed something the page shows,
  and wrong products exactly when it changed what the catalogue answers; each write says so in those
  terms (`CreateSection` to `ReorderSections`). Readers then get a stale page (`StalePage`); seven minutes
  later every answer is right again (`GetHomepage`);
- a broadcast gets stuck exactly when a client it must reach has no room, because the hub's loop then
  waits for itself; sent from elsewhere, a message for a full queue closes a registered client's
  channel, and the unregistration that follows closes it again (`OverflowClosesTwice`), as does
  DisconnectUser;
- a verification token gets at most four codes and one more for every write of its metadata that
  failed, since such failures are ignored (`CodesAreLimited`, `LostMetadataIsNotCounted`);
- shipping annotations read back exactly when country and service hold no colon;
- a price string is in the validator's grammar exactly when the amount is not negative and the
  currency is three capitals.

## Model

| member | source | states |
|---|---|---|
| LogoutFinality.LogoutIsFinal | internal/service/auth/auth.go:350-366 | In every interleaving of logins, checks, logouts and background writers in which each SET of a session of the token lands at the clock value its TTL was computed with, once Logout or RevokeSession of the token has returned, no check that starts later accepts it, however long it takes, provided each logout of it begins after the login has computed the session's expiry |
| LogoutFinality.LogoutFinalExactly | internal/service/auth/auth.go:301-339 | In such runs a logout is final in all continuations if and only if the login has computed the expiry when it begins, or the token has expired |
| LogoutFinality.EarlyLogoutFails | internal/service/auth/auth.go:301-339 | From every state with a valid token whose login has yet to compute the expiry, a logout can return, the login then hand the token to its caller, and a check begun with it accept, although no SET is delayed |
| LogoutFinality.EarlyLogoutExample | internal/service/auth/auth.go:301-339 | The first login of a service already comes through such a state |
| LogoutFinality.FinalStep | internal/pkg/session/manager.go:61-175 | Each step of such a run keeps: Redis entries expire with their row, and blacklist entries and pending logouts outlast every session of a settled token |
| LogoutFinality.HandedIsSettled | internal/service/auth/auth.go:301-339 | In every reachable state, a token that a login has answered with is past the computation of its session's expiry, so its holder's logouts are settled |
| DelayedLogouts.FinalDespiteDelaysExactly | internal/pkg/session/manager.go:42-155 | Whatever is delayed, the first logout of an access token is final in all continuations if and only if the token has expired when it begins, or neither a live Redis entry, a live active row nor a task that can still write the session is left |
| DelayedLogouts.DelayedSetFails | internal/pkg/session/manager.go:149-152 | Beside a pending SET of its session whose TTL is computed, a logout of a valid token held by its caller can return and be followed by a check that accepts the token: the SET lands when the blacklist entry is over |
| DelayedLogouts.DelayedSetExample | internal/pkg/session/manager.go:126-155 | For every delay up to half a Ttl there is a run from the start in which all commands succeed, the activity update's SET lands that much after its TTL was computed, the token's holder logs out in between, and a check that begins after and lasts no longer than the delay accepts |
| DelayedLogouts.SessionPoises | internal/pkg/session/manager.go:61-123 | From every state in which a usable token has a session, checks and writers lead to a pending SET of it at the same clock value |
| SessionProtocol.LateAcceptsOutliveToken | internal/service/auth/auth.go:581-607 | In any run at all, a check that starts after a logout returned accepts only if it reads the blacklist after the token's own expiry |
| SessionProtocol.PromptChecksAreNeverLate | internal/service/auth/auth.go:581-607 | In any run at all, a check that verifies the token and reads the blacklist at one clock value never accepts it after its logout has returned |
| SessionProtocol.RevokedStaysRevoked | internal/repository/postgres/auth_repo.go:332-353 | From every reachable state, no session row disappears and no revoked row becomes active again, whatever runs next |
| SessionRevival.ReachableIsSound | internal/pkg/session/manager.go:31-155 | In every reachable state each session entry, stored or about to be, is under the key of a token whose login has cached it and says it lasts at least as long as the token |
| SessionRevival.DeadStep | internal/pkg/session/manager.go:31-155 | A token with no live Redis entry, no live active row and no task that can write one stays that way under every step, and no check accepts it |
| SessionRevival.ComesAlive | internal/pkg/session/manager.go:31-155 | A live entry or any pending writer of a usable token leads, by writes at the same clock value, to a live entry of a token its caller holds |
| LogoutAllFinality.LogoutAllIsFinal | internal/service/auth/auth.go:369-380 | When the UPDATE succeeds and neither a live Redis entry of a token of the identity nor a task that can still write one is left, nothing afterwards accepts the token, not even a check already under way |
| LogoutAllFinality.LogoutAllFinalExactly | internal/service/auth/auth.go:369-380 | For a token that still verifies and is not blacklisted this is exact: no continuation accepts it if and only if no live entry and no such task is left when the UPDATE succeeds |
| LogoutAllFinality.CleanLogoutAllIsFinal | internal/pkg/session/manager.go:178-195 | That is so for every token of the identity whenever the SCAN completes, no DEL of the logout fails and no login or background write of the identity is pending beside it |
| LogoutAllFinality.FailedDeleteIsNotFinal | internal/pkg/session/manager.go:184-194 | A logout whose last DEL fails reports success, and some continuation accepts the token |
| LogoutAllFinality.PendingWriteIsNotFinal | internal/pkg/session/manager.go:126-155 | An activity update past its GET or a restore before its SET, pending at the UPDATE of a complete logout, lets some continuation accept the token |
| LogoutAllFinality.PendingLoginIsNotFinal | internal/service/auth/auth.go:301-339 | So does a login that has issued the token and has yet to SET its session, its row inserted or not |
| LogoutAllFinality.FailedDeleteExample | internal/pkg/session/manager.go:178-195 | A run from the start comes to a last DEL whose failure leaves the first login's token to be accepted |
| LogoutAllFinality.PendingActivityExample | internal/pkg/session/manager.go:126-155 | A run from the start comes to the UPDATE, all DELs done, with an activity update pending that lets the token be accepted |
| SessionProtocol.AcceptsWereVerified | internal/service/auth/auth.go:581-607 | Every accepted token was, when its check began, unexpired, for access and not temporary |
| SessionProtocol.InvStep | internal/pkg/session/manager.go:227-230 | Each single step keeps the invariant that a blacklist entry outlives the token it names and that pending logouts know enough of the expiry |
| SessionProtocol.InvRun | internal/pkg/jwt/generator.go:37-58 | The invariant, which bounds every issued expiry by the clock plus Ttl, holds after any run |
| SessionProtocol.RowsStep | internal/repository/postgres/auth_repo.go:257-285 | Only the login that owns a token inserts its row, once and before it answers, and no step reactivates a row |
| SessionProtocol.OtherIdentitiesStay | internal/repository/postgres/auth_repo.go:343-352 | A step of LogoutAllSessions changes no row and no session key of another identity and no blacklist entry; its UPDATE revokes exactly the active rows of its identity |
| SessionProtocol.OthersRunBeside | internal/pkg/session/manager.go:31-195 | Over any run whose steps are neither about a token nor sweep its identity, the token's row, session entry and blacklist entry stay as they are |
| SessionManager.LogoutStepsMatch | internal/service/auth/auth.go:350-366 | Stepping one logout through the protocol without interruption leaves the store the sequential Logout leaves, for every combination of failing commands |
| SessionManager.CheckStepsMatch | internal/service/auth/auth.go:581-607 | Stepping one token check through the protocol without interruption accepts exactly when the sequential ValidateToken does, for every combination of failing reads |
| SessionManager.RestoreStepsMatch | internal/pkg/session/manager.go:31-58 | Stepping one restore to its end, with time passing before its SET and its UPDATE, leaves the store the sequential CreateSession leaves |
| SessionManager.ActivityStepsMatch | internal/pkg/session/manager.go:126-155 | Stepping one activity update to its end, with time passing between its commands, leaves the store the sequential UpdateSessionActivity leaves |
| SessionManager.Manager.CreateSession | internal/pkg/session/manager.go:31-58 | Success exactly when the entry is unexpired when the TTL is computed and Redis accepts it; then one key is set, whose entry outlives its own expiry by as much as the SET is late, one row is touched, and nothing else changes |
| SessionManager.Manager.GetSession | internal/pkg/session/manager.go:61-123 | A session is found exactly when Redis answers with it or the database with an active unexpired row of the same identity; which background task it leaves |
| SessionManager.Manager.UpdateSessionActivity | internal/pkg/session/manager.go:126-155 | Only an entry live at the GET and unexpired when the TTL is computed is written back, if both commands succeed; its expiry is kept and its life counts from the SET |
| SessionManager.Manager.InvalidateSession | internal/pkg/session/manager.go:158-175 | A failed Redis delete or lookup is ignored, a failed update is reported; the whole new store in each case |
| SessionManager.Manager.InvalidateAllUserSessions | internal/pkg/session/manager.go:178-195 | Every scanned key is deleted but those whose DEL failed; if the UPDATE succeeds exactly the active rows of the identity are revoked with the time, and every other row and key is as before; success is reported exactly when SCAN and UPDATE succeed, and then only failed DELs leave keys of the identity |
| SessionManager.Manager.BlacklistToken | internal/pkg/session/manager.go:227-230 | The token is blacklisted at every time before its TTL ends; a non-positive TTL never ends |
| SessionManager.AuthService.Logout | internal/service/auth/auth.go:350-366 | When it succeeds, and the new store: the key, the row and the blacklist entry of the one token, and nothing of another; after success the token is blacklisted until a full Ttl after the first clock read |
| SessionManager.AuthService.LogoutAllSessions | internal/service/auth/auth.go:369-380 | The same outcome and report, told of rows and keys: nothing of another identity changes |
| SessionManager.AuthService.ValidateToken | internal/service/auth/auth.go:581-607 | The exact condition for accepting a token, from claims, blacklist, Redis, rows and the outcome of each read |
| Inventory.InventoryTx.Reserve | internal/repository/postgres/inventory_repo.go:283-310 | Moves the quantity from available to reserved, or changes nothing and tells a missing row from insufficient stock |
| Inventory.InventoryTx.Release | internal/repository/postgres/inventory_repo.go:328-346 | Moves the quantity back only if that much is reserved |
| Inventory.InventoryTx.AdjustAvailable | internal/repository/postgres/inventory_repo.go:238-265 | Available changes by the delta unless it would become negative |
| Inventory.CatalogStock.ReserveStock | internal/service/catalog/inventory.go:105-110 | Non-positive quantities are refused before any row is touched |
| Inventory.CatalogStock.UpsertInventoryItem | internal/service/catalog/inventory.go:66-84 | Negative quantities and unknown locations are refused before any row is touched |
| StockTransactions.Serializable | internal/repository/postgres/inventory_repo.go:238-347 | For every interleaving of transactions under row locks, the committed table is what the committed statements give when replayed one transaction after another |
| StockTransactions.StockIsConserved | internal/service/catalog/inventory.go:98-117 | In every reachable committed table no quantity is negative, available plus reserved moves only by adjusts and upserts, and reserved is its start plus reserves minus releases since the last upsert |
| StockTransactions.StepEffect | internal/repository/postgres/inventory_repo.go:238-347 | A statement that succeeds is seen by its transaction alone and one that fails changes nothing; a commit makes what the transaction saw of every row the committed version; a rollback leaves no trace |
| StockTransactions.WaitsExactly | internal/repository/postgres/inventory_repo.go:283-346 | In every run a statement waits exactly while another open transaction has changed its row |
| StockTransactions.InvStep | internal/repository/postgres/inventory_repo.go:268-310 | Each step keeps: open transactions lock disjoint rows, and each one's view is its own statements replayed on the committed table |
| StockTransactions.ReplayDisjoint | internal/repository/postgres/inventory_repo.go:238-347 | Statements on rows another transaction has not locked commute with its commit |
| OrderPlacement.OrderService.CreateOrderFromItems | internal/service/order/service.go:287-385 | Succeeds exactly when every line is valid, every ordered variant's summed quantity fits its lowest location, and the order is stored; then exactly those rows move from available to reserved, every line carries its product's name and slug and its variant's price and costs price times quantity, and both totals are the sum of price times quantity; otherwise nothing changes and the first line that cannot be served decides the error |
| OrderPlacement.OrderService.ReserveItem | internal/service/order/service.go:315-372 | One line succeeds exactly when it is valid and its first location holds enough, and then costs price times quantity; otherwise each error with its exact condition, and no change |
| OrderPlacement.FirstLocation | internal/service/order/service.go:341-345 | The lowest location that stocks the variant, or none if it is stocked nowhere |
| OrderPlacement.ServableNext | internal/service/order/service.go:315-348 | After reserving some lines, one more fits what is left exactly when the longer order fits the original stock |
| OrderPlacement.WorthByVariant | internal/service/order/service.go:350-372 | The total is also each variant's price times the units of it that are reserved, whatever the lines repeat |
| CategoryTree.GuardIsExact | internal/service/catalog/category.go:203-227 | The closure-table guard refuses a move exactly when the move would create a cycle |
| CategoryTree.MoveMakesCycle | internal/service/catalog/category.go:219-225 | A move under a descendant of the category always closes a cycle |
| CategoryTree.MoveKeepsForest | internal/repository/postgres/category_repo.go:172-187 | A move under a category outside the subtree keeps the parent relation a forest |
| CategoryTree.AncestorListIsPath | internal/repository/postgres/category_repo.go:154-161 | Whatever order ties come in, the depth-descending ancestor list is the path from the root to the direct parent |
| CategoryTree.PathUnique | internal/service/catalog/category.go:144-162 | There is only one such path |
| CategoryTree.DepthBound | internal/repository/postgres/category_repo.go:287-311 | In a forest no chain of parents is as long as the number of categories |
| CategoryTriggers.InsertKeepsClosure | internal/db/migrations/002_category_closure_triggers.sql:24-38 | The trigger's rows for a new category make the closure exact again |
| CategoryTriggers.MoveKeepsClosure | internal/db/migrations/002_category_closure_triggers.sql:43-71 | The trigger's DELETE and INSERT on a re-parenting leave exactly the closure of the new parent relation |
| CategoryTriggers.GraftsNewPairs | internal/db/migrations/002_category_closure_triggers.sql:57-69 | The re-parenting INSERT never repeats an (ancestor, descendant) pair the DELETE left |
| CategoryTriggers.GraftsDistinctPairs | internal/db/migrations/002_category_closure_triggers.sql:61-69 | No two rows it selects from give the same pair, so with the row above it cannot violate the primary key |
| CategoryTriggers.InsertsNewPairs | internal/db/migrations/002_category_closure_triggers.sql:26-36 | The rows for a new category repeat neither a pair of the table nor one another's |
| CategoryTriggers.ClosureHasKeys | internal/db/migrations/001_svc_init.sql:41-48 | The closure of a forest has one row per pair, as its primary key demands |
| CategoryTriggers.DeleteKeepsForest | internal/db/migrations/001_svc_init.sql:29-37 | Deleting a category leaves a forest exactly when it has no children, which is when the foreign key lets it go |
| CategoryTriggers.DeleteKeepsClosure | internal/db/migrations/002_category_closure_triggers.sql:78-84 | The trigger's DELETE leaves the closure of the remaining categories |
| CategoryTriggers.RunsKeepTree | internal/service/catalog/category.go:178-307 | Every sequence of creations, moves and deletions, refused ones included, leaves a forest and its exact closure table |
| CategoryTriggers.AcceptedExactly | internal/service/catalog/category.go:200-237 | A creation, move or deletion is made exactly when its categories exist, or do not yet, and a forest results; otherwise nothing changes |
| CategoryService.Service.CreateCategory | internal/service/catalog/category.go:19-80 | When a category is created and as what, and each error with its exact condition; otherwise nothing changes; forest and closure are kept |
| CategoryService.Service.UpdateCategory | internal/service/catalog/category.go:178-271 | An update is accepted exactly when the name is absent or valid, the category exists and can be stored, and the parent is absent, 0, or another existing category under which the links stay a forest; each error has its exact condition, a move being refused as circular exactly when it would make a cycle; forest and closure are kept |
| CategoryService.Service.DeleteCategory | internal/service/catalog/category.go:300-307 | A category goes exactly when the forest stays one without it; otherwise nothing changes |
| FeedRequests.FeedRequest.Validate | internal/domain/discovery/types.go:54-129 | Accepts exactly the acceptable requests and leaves their normal form; otherwise the error of the first check that fails; acceptance is spelled out field by field, with every bound |
| FeedRequests.NormalizeFilterIds | internal/domain/discovery/types.go:131-151 | Refuses exactly lists with a non-positive id; otherwise the same ids, each once, ascending |
| FeedRequests.NormalIdsUnique | internal/domain/discovery/types.go:131-151 | There is only one such list |
| FeedRequests.SessionDroppedExactly | internal/domain/discovery/types.go:81-88 | A session is dropped exactly when it is all white space |
| FeedRequests.ValidateIdempotent | internal/domain/discovery/types.go:54-129 | The normal form is accepted again and is its own only normal form |
| FeedCacheKey.KeyIdentifiesRequest | internal/service/discovery/service.go:215-266 | For colon-free session and query and whole-hundredth numbers, two requests share a key exactly when they are equal up to the case of the query and the order of filter ids |
| FeedCacheKey.KeyShowsRequest | internal/service/discovery/service.go:215-270 | Without colons in the caller's texts, two keys are equal exactly when they print the same fields, rounded numbers included |
| FeedCacheKey.ValidatedKeyIsExact | internal/service/discovery/service.go:215-266 | For validated requests, sharing a key is being the same request up to the case of the query |
| TextlessKeys.TextlessKeyIsExact | internal/service/discovery/service.go:215-266 | A validated request without session and query shares its key exactly with requests that print the same, whatever texts those carry; if it has no price bounds and no minimal rating either, with no other request |
| FeedCacheKey.BuildFeedCacheKey | internal/service/discovery/service.go:215-266 | The part-by-part builder returns the key the theorems are about |
| FeedCacheKey.FormatShownInjective | internal/service/discovery/service.go:268-270 | The two-decimal print loses nothing but what rounding loses |
| FeedService.ColonSessionCollides | internal/service/discovery/service.go:224-229 | Two different requests that are accepted and cached share a key: a session with a colon, and a session with a category |
| FeedService.ColonQueryCollides | internal/service/discovery/service.go:230-249 | Two different requests that are accepted and cached share a key: a query with a colon, and a query with a brand filter, for texts that lower-casing leaves alone |
| FeedCacheKey.QueryCaseCollides | internal/service/discovery/service.go:230-232 | Two queries that lower-case alike share a key |
| FeedCacheKey.RoundedPriceCollides | internal/service/discovery/service.go:251-256 | Two different price bounds that print alike share a key |
| FeedService.FallbackKeepsPrimary | internal/service/discovery/service.go:86-130 | The merged feed is the primary candidates and then, feed by feed in fallback order, the new products of each answer, asked for what is missing at its turn; it repeats a product only if they do, never exceeds the limit, and when short has every product of every fallback answer |
| FeedService.NewOnesAreNew | internal/service/discovery/service.go:117-126 | What a fallback adds: exactly its products not seen before, each once |
| FeedService.DiscoveryService.GetFeedCandidatesWithFallback | internal/service/discovery/service.go:86-130 | The loop over clones of the request computes the fallback merge and leaves the caller's request alone |
| FeedService.DiscoveryService.GetFeed | internal/service/discovery/service.go:54-84 | What is served and what is cached, over any run with failing caches and expiries. The answer to a validated request is always that of a request made under the same key in the last two minutes; it is the cacheless answer for feeds that are not cached, for requests with neither texts nor numbers, and whenever the requests of the last two minutes under the same key are key-safe; invalid requests get the first failing check's error |
| FeedService.DiscoveryService.SharedKey | internal/service/discovery/service.go:54-84 | Of two requests under one key within two minutes, the second is answered with the first one's feed, which is not its own |
| FeedService.AnswerIs | internal/service/discovery/service.go:54-130 | The answer to a validated request: unknown categories of a category feed are refused, errors of candidates and hydration passed on, and otherwise the merged candidates are hydrated in their order |
| FeedService.CacheableMeans | internal/service/discovery/service.go:197-214 | Which feeds are cached, by name: eight public ones, and recommendations for a known user |
| FeedService.DiscoveryService.StoreCachedFeed | internal/service/discovery/service.go:185-195 | Caches only non-empty answers of cacheable feeds, under the request's key |
| OrderQuery.BuildOrdersWhere | internal/repository/postgres/order.go:239-279 | For any subset of filters, every placeholder refers to a bound argument and the clause list with its arguments means the filter on every row, condition by condition |
| OrderQuery.ListOrders | internal/repository/postgres/order.go:167-237 | The count and the page come from the rows that match the filter, with limit and offset bound to the right placeholders and clamped |
| OrderQuery.HoldsExtends | internal/repository/postgres/order.go:195-197 | Appending limit and offset does not change what the clauses refer to |
| CatalogQuery.BuildCatalogQueryParts | internal/repository/postgres/product_listing.go:147-297 | For any filter, grouping the joined rows that pass the built clauses selects exactly the products that meet the filter, condition by condition, and clauses mention only joined tables and bound arguments |
| CatalogQuery.CountIsPages | internal/repository/postgres/product_listing.go:62-98 | The DISTINCT count equals the number of ids over all pages, which together list each wanted product exactly once and nothing else |
| CatalogQuery.ListProductsForCatalog | internal/repository/postgres/product_listing.go:28-127 | Page numbers below 1 are refused; otherwise the page of the clamped size of the wanted products in order, and their number, both through the built queries and their placeholders |
| CatalogQuery.PageMeans | internal/repository/postgres/product_listing.go:68-98 | The two placeholders after the filter's are the limit and the offset |
| StorefrontTables.BestIsLargest | internal/repository/postgres/product_listing.go:156-208 | A product's best discount is the largest percentage that a target of a running discount on it, its brand or one of its categories gives, and there is none exactly when no target gives any |
| StorefrontTables.EffectivePrice | internal/repository/postgres/product_listing.go:212-212 | The effective price is a whole number of cents, the nearest to the price less its best discount, ties away from zero |
| StorefrontTables.StockAddsUp | internal/repository/postgres/product_listing.go:214-224 | A product's stock adds up available less reserved over exactly the rows of its active variants |
| Sql.PagesReadEverything | internal/repository/postgres/product_listing.go:71-98 | Consecutive LIMIT/OFFSET pages concatenate to the listing |
| EligibleQuery.EligibleMeansFilter | internal/repository/postgres/discovery_repo.go:790-901 | For any start position, any arguments before and after, and any filter, the eligible-products text with its nine arguments selects exactly the active products that meet the filter, condition by condition |
| EligibleQuery.ArgsResolve | internal/repository/postgres/discovery_repo.go:649-661 | Each of the nine placeholders, and the limit after them, resolves to its value |
| EligibleQuery.CountFindsAll | internal/repository/postgres/discovery_repo.go:885-894 | Counting the distinct listed attribute values of a variant finds exactly the variants that carry all of a list without repeats |
| EligibleQuery.FiltersAgree | internal/repository/postgres/product_listing.go:147-297 | What the EXISTS query of the feeds selects is what the catalogue filter asks for, and the listed attributes besides |
| EligibleQuery.BuildAgreeingQuery | internal/repository/postgres/product_listing.go:147-297 | The JOIN and GROUP BY query built for a feed filter selects, on every database, exactly the products the EXISTS query selects at any position of its arguments, but for the attributes only feeds can ask for |
| EligibleQuery.CandidatesAreFiltered | internal/repository/postgres/discovery_repo.go:600-637 | A ranked feed is its ranking restricted to the wanted products and cut at the request's limit |
| StorefrontTables.SameOffers | internal/repository/postgres/discovery_repo.go:805-845 | For an active product it makes no difference that one query takes discounts from active products only |
| FeedImages.NormaliseIdempotent | internal/merchant/application/feedgen/generator.go:263-275 | Normalising a URL twice is normalising it once |
| FeedImages.NormaliseLoses | internal/merchant/application/feedgen/generator.go:263-275 | A link becomes empty exactly when it names neither scheme |
| FeedImages.NormaliseKeepsRest | internal/merchant/application/feedgen/generator.go:263-275 | A trimmed https link stays as it is, and of an http link only the scheme changes |
| FeedImages.DeduplicateImages | internal/merchant/application/feedgen/generator.go:279-300 | The loop with its early stop returns the first ten distinct normalised links other than the primary |
| FeedImages.DistinctIsExact | internal/merchant/application/feedgen/generator.go:279-300 | Those links are exactly the offered ones, non-empty, not the primary, each once |
| FeedImages.DistinctPrefix | internal/merchant/application/feedgen/generator.go:284-298 | They come in input order: what a prefix of the input yields is a prefix of the result |
| FeedImages.DeduplicateIdempotent | internal/merchant/application/feedgen/generator.go:279-300 | De-duplicating twice is de-duplicating once |
| FeedImages.PartitionImages | internal/merchant/application/hydration/hydration.go:187-208 | The first marked image with a URL becomes primary, else the first image; the first ten of the others follow in order |
| FeedImages.PartitionMeans | internal/merchant/application/hydration/hydration.go:187-208 | The primary image is the first marked one with a URL, and the others are the unmarked ones before it and all behind it, in order |
| FeedImages.UnmarkedRepeatsFirst | internal/merchant/application/hydration/hydration.go:199-206 | With no marked image the first is both primary and listed, until de-duplication removes it |
| FeedGenerator.Run | internal/merchant/application/feedgen/generator.go:65-155 | The cursor loop terminates for every batch size and publishes or counts every visited variant, in id order |
| FeedGenerator.Generate | internal/merchant/application/feedgen/generator.go:48-155 | An item is published exactly if it has an id, a title that is not blank, https link and image links longer than ten characters, a price, and a listed availability and condition; skipped are exactly the visited variants of whose image link nothing is left; without the stock filter, valid plus invalid plus skipped equals the counted total, which is the number of eligible variants |
| FeedGenerator.NormaliseChanges | internal/merchant/application/feedgen/generator.go:104-113 | Preparing an item replaces the placeholder in front of its link by the store's address, moves its image link to https, prepares its title and leaves id, price, availability and condition alone |
| FeedGenerator.TitleIs | internal/merchant/application/feedgen/generator.go:302-310 | A prepared title is blank exactly if the given one is, has no two blanks in a row and at most 150 characters; a title that is trimmed and like that already stays as it is |
| FeedGenerator.RunIsComplete | internal/merchant/application/feedgen/generator.go:72-155 | Without the stock filter a run visits every eligible variant exactly once in ascending id order |
| FeedGenerator.QueriesMeanFilter | internal/merchant/infrastructure/postgres/queries.go:60-84 | The load and count queries, with differently numbered parameters and differently written stock conditions, apply the same rules, which are spelled out |
| FeedGenerator.NextCursor | internal/merchant/infrastructure/postgres/merchant_repo.go:371-375 | When HasMore is set, the cursor leaves exactly the eligible variants not yet seen |
| FeedGenerator.CompleteExactly | internal/merchant/infrastructure/postgres/queries.go:207-213 | With the stock filter a run is complete, and the counted total is reached, exactly when nothing wanted lies behind the first batch with an out-of-stock variant |
| FeedGenerator.VisitedAndUnreached | internal/merchant/application/feedgen/generator.go:141-144 | What a run visits and the wanted variants it never reaches make up all wanted variants |
| FeedGenerator.StockFilterStopsEarly | internal/merchant/infrastructure/postgres/merchant_repo.go:371-375 | Two variants, the first out of stock: batches of one find neither although one was counted |
| Pricing.SaleIsLeft | internal/merchant/application/hydration/hydration.go:161-175 | Percentage discounts round the amount taken off up, fixed ones down, and nothing goes below zero |
| Pricing.SaleWithinPrice | internal/merchant/application/hydration/hydration.go:161-175 | A sale price lies between zero and the price |
| Pricing.FormulasDifferByOneCent | internal/merchant/application/hydration/hydration.go:162-171 | The two formulas are equal or one cent apart, and exactly when |
| Pricing.SaleMonotone | internal/merchant/application/hydration/hydration.go:161-175 | A larger discount never gives a higher sale price |
| Pricing.AdvertisedExactly | internal/merchant/domain/merchant_domain.go:215-217 | A sale is advertised exactly when it lies strictly between zero and the price, and for which amounts off that is |
| Pricing.ResolvePricing | internal/merchant/application/hydration/hydration.go:148-181 | No sale price without a positive discount; otherwise the price less the amount taken off, rounded up for percentages and down for fixed discounts, never below zero; and exactly which discounts are advertised |
| Money.FormatMatchesExactly | internal/merchant/domain/merchant_domain.go:134-141 | A printed price matches the grammar exactly when the amount is not negative and the currency is three capitals |
| Money.ParseInvertsFormat | internal/merchant/application/validator/validator.go:57 | Reading the grammar back gives the printed cents and currency |
| Money.CurrencyIsExtracted | internal/merchant/application/validator/validator.go:226-232 | The currency check reads the currency that was printed |
| Money.SplitN | internal/merchant/application/feedxml/feed.go:240-252 | For any separator, the pieces join to the input, each is cut at the first separator, and there are n unless the input runs out |
| Money.ParseShippingString | internal/merchant/application/feedxml/feed.go:227-238 | Three parts cut at the first two colons, or empty fields |
| Money.ShippingRoundTrip | internal/merchant/domain/merchant_domain.go:184-186 | Reading a printed annotation gives its parts back exactly when country and service contain no colon |
| Hub.Client.Subscribe | internal/websocket/client.go:92-111 | Sensitive channels open only to the right roles; a refused subscription changes nothing |
| Hub.Client.SendMessage | internal/websocket/client.go:261-276 | An open channel with room gets the message; a full one is closed, gets nothing and asks to be unregistered |
| Hub.HubState.RegisterClient | internal/websocket/hub.go:121-141 | The client is added under its own identity, gets the welcome message, and the hub's invariant holds |
| Hub.HubState.UnregisterClient | internal/websocket/hub.go:143-160 | A registered client is removed and closed once; an unknown one changes nothing; no empty identity is left |
| Hub.HubState.BroadcastAll | internal/websocket/hub.go:166-174 | Each registered and subscribed client gets the message exactly once and nobody else anything; or, exactly if one of them has no room, the hub is left stuck with a client broken |
| Hub.HubState.BroadcastTo | internal/websocket/hub.go:175-186 | Each registered and subscribed client gets one copy per mention of its identity and nobody else anything; or, exactly if one of them has no room for all its copies, the hub is left stuck |
| Hub.HubState.DisconnectUser | internal/websocket/hub.go:267-285 | Every client of the user gets the message, is closed exactly once and forgotten, and others stay; or, exactly if one of them has a full queue, its channel is closed twice |
| Hub.HubState.TotalClients | internal/websocket/hub.go:198-206 | The sum over identities counts each registered client once |
| Hub.CopiesCount | internal/websocket/hub.go:175-186 | A targeted broadcast sends as many copies as the list names the identity |
| Hub.HubState.AuditIsForSuperAdmins | internal/websocket/client.go:100-105 | In every valid hub, whoever is sent something on the audit channel is a super admin |
| Hub.HubState.OverflowClosesTwice | internal/websocket/client.go:261-276 | Outside the hub's loop, a full queue breaks the invariant, and the unregistration it asks for closes the channel a second time |
| ImageScheduler.EverySchedule | internal/service/catalog/image_helper.go:36-79 | In every schedule at most four images are in process, there are at most 3n + 1 steps, and nothing is enabled exactly when Wait returns |
| ImageScheduler.AnswerIsRight | internal/service/catalog/image_helper.go:74-79 | Paths are returned exactly when every file could be processed, path i from file i; otherwise the error of one that could not |
| ImageScheduler.InvStep | internal/service/catalog/image_helper.go:50-72 | Every launch, break, end of processing and report keeps the slots equal to the images in process |
| ImageScheduler.StepDecreases | internal/service/catalog/image_helper.go:50-72 | Every step brings the schedule closer to its end |
| ImageScheduler.NeverStuck | internal/service/catalog/image_helper.go:50-79 | No deadlock: a state without enabled step is one where Wait returns |
| RateLimiter.SlidingCap | internal/pkg/session/redis_store.go:264-276 | A fixed-window counter allows at most twice its maximum in any interval of the window's length |
| RateLimiter.WindowCap | internal/pkg/session/redis_store.go:264-276 | It allows at most its maximum per window |
| RateLimiter.Compare | internal/pkg/session/redis_store.go:264-276 | Windows of a history do not overlap, and counts within one go up by one |
| RateLimiter.Limiter.CheckLoginAttempt | internal/pkg/session/redis_store.go:21-42 | One increment of the address-and-email counter decides the answer and the remaining attempts; a Redis failure lets nobody in |
| RateLimiter.Limiter.LoginsAreLimited | internal/pkg/session/redis_store.go:21-42 | Over every run, at most 5 logins are allowed per window and 10 in any 15 minutes |
| RateLimiter.Limiter.WindowsLast | internal/pkg/session/redis_store.go:21-42 | Every counter opens a new window exactly when its fifteen minutes, one minute or thirty are over, and counts up by one within |
| RateLimiter.Limiter.CheckEmailVerificationAttempt | internal/pkg/session/redis_store.go:163-203 | Every attempt is counted under the short limit, one that passes it under the long limit too, and one that this refuses locks the address for half an hour; the whole new state, for every combination of failing commands |
| EmailVerification.EmailService.CodesAreLimited | internal/pkg/session/redis_store.go:163-203 | Over every run, the logged times at which requests of an address were admitted are at least a minute apart and at most 8 in any 30 minutes, and a token gets at most 4 codes and one for each lost write of its metadata |
| EmailVerification.FourAreAdmitted | internal/pkg/session/redis_store.go:163-203 | Of an address without history the limits admit four requests a minute apart, and not the fifth |
| EmailVerification.EmailService.LostMetadataIsNotCounted | internal/service/auth/auth_flow_2.go:151-155 | A resend whose metadata cannot be stored sends a code and leaves the counter as it was |
| EmailVerification.EmailService.Admit | internal/service/auth/auth_flow_2.go:21-41 | A locked address, or one whose lock cannot be read, is refused without counting; otherwise the request is counted, exactly the limits decide, a refusal by the long one locks the address, and an admission is logged with its time |
| EmailVerification.EmailService.SendCode | internal/service/auth/auth_flow_2.go:20-93 | The request is counted and logged if admitted; a code goes out exactly when it is admitted, found not to be registered, and stored; a failed write of its metadata is ignored |
| EmailVerification.EmailService.ResendCode | internal/service/auth/auth_flow_2.go:95-155 | The request is counted and logged if admitted; a code is resent exactly when it is admitted, code and metadata are live, fewer than three resends are counted, and it can be stored |
| Homepage.HomepageService.GetHomepage | internal/service/homapage/service.go:88-120 | Over any sequence of reads, expiries, writes and failing cache commands, the page is the one a service without caches would assemble, unless a write left a wrong page in the last two minutes or wrong products in the last seven |
| Homepage.HomepageService.GetSectionByID | internal/service/homapage/service.go:123-154 | The answer is the cacheless one, errors included, unless a write left wrong products in the last five minutes; wrong pages do not matter |
| Homepage.HomepageService.StalePage | internal/service/homapage/service.go:224-231 | Deleting a section the page shows, with the page's own deletion failing, leaves readers a page that is wrong |
| Homepage.HomepageUnique | internal/repository/postgres/homepage_sections.go:35-43 | There is only one such page: the active sections by position and id, without those that do not resolve |
| Homepage.HomepageIs | internal/repository/postgres/homepage_sections.go:35-43 | It shows exactly the active sections whose products the catalogue answers, each with its first twenty, by ascending position and id |
| Homepage.PageStaysRight | internal/service/homapage/service.go:88-120 | A right page is right for other rows as well exactly when the same sections are active and resolve |
| Homepage.HomepageService.CreateSection | internal/service/homapage/service.go:162-186 | When a section is created and as what; right caches stay right if and only if the page is deleted, none is cached, or the new section is inactive or does not resolve, although only the page is dropped |
| Homepage.HomepageService.UpdateSection | internal/service/homapage/service.go:188-222 | The updated section or the first problem; right caches stay right if and only if the page is deleted, absent or shows the same of the section, and its products are deleted, absent or those the catalogue answers for the new type and reference |
| Homepage.HomepageService.DeleteSection | internal/service/homapage/service.go:224-231 | The section and only it is gone; right caches stay right if and only if the page is deleted, absent or does not show the section |
| Homepage.HomepageService.ToggleActive | internal/service/homapage/service.go:244-251 | Only the flag of one section changes; right caches stay right if and only if the page is deleted or absent, the flag was the same already, or the section does not resolve, whether or not its products could be deleted |
| Homepage.HomepageService.ReorderSections | internal/service/homapage/service.go:233-242 | All named sections move or none does; right caches stay right if and only if the page is deleted, absent, or no section it shows is sent to a new position |
| Homepage.ReorderNext | internal/repository/postgres/homepage_sections.go:144-164 | With distinct ids, each statement of the transaction moves one more section and disturbs none before it |

## Left out

- Sessions: the precision of JWT seconds, Redis milliseconds and SQL timestamps; all times are reals of one clock that Redis, Postgres and the service share, and session ids are folded into the token id.
- Sessions: what follows the SET of a login's session (reading the profile) is taken to succeed.
- Sessions: RefreshSession, listing of active sessions, and profile data inside the Redis entry.
- Token verification: RSA, issuer and audience checks are read as "the generator issued exactly these claims".
- LogoutFinality.LogoutIsFinal: assumes that no SET of a session lands later than the clock value its TTL was computed with, and that no logout of the token begins before its login has computed the session's expiry; DelayedSetFails and LogoutFinalExactly show that both are needed.
- LogoutFinality.LogoutFinalExactly: about runs whose SETs are not delayed; FinalDespiteDelaysExactly is about all runs.
- LogoutAllFinality.CleanLogoutAllIsFinal: assumes no failed DEL and no pending login or background write of the identity; the lemmas beside it show what goes wrong otherwise.
- OrderPlacement: cart lookup, addresses, e-mails and discount redemption; whether the order rows can be stored is one flag. The cart is cleared without invalidating its cache, so nothing is claimed about it.
- Integer widths: ids, quantities and prices are unbounded integers, so overflow of Go or SQL columns is not modelled; order prices are integer cents.
- Inventory: locations, stock summaries and deletion beyond the log entry that removes a row.
- CategoryService.Service.CreateCategory: slugs and their conflicts, and images, are left out; whether the row can be stored is one flag.
- CategoryService.Service.UpdateCategory: slug regeneration and images are left out; whether the row can be stored is one flag.
- CategoryService.Service.DeleteCategory: the rows of other tables that go with a category by cascade are left out.
- Categories: two requests racing between the guard and the write.
- FeedService.DiscoveryService.GetFeed: equality with the cacheless answer assumes, for a request of a cached feed with texts or numbers, that the requests of the last two minutes under its key are key-safe (`KeySafe`), and that the repositories do not change; a call reads the clock once.
- FeedCacheKey: lower-casing is an arbitrary function, numbers are exact reals (no negative zero), and MinRating, which the key also prints with two decimals, is treated like the prices.
- Suggestions, search tracking and the ranking SQL of the individual feeds.
- CatalogQuery: ILIKE is an arbitrary function, the order of the products is a parameter (its names and their errors are left out), and hydration of product cards is not modelled.
- Prices as floating point: effective prices, discounts and MoneyFromDecimal are exact arithmetic; rounding errors of floats are not modelled.
- FeedGenerator: a batch size of 0, descriptions, identifiers and the other optional fields of an item, logging and the clock; string lengths are in runes where Go counts bytes.
- The fixed-discount branch of the batch scanner (internal/merchant/infrastructure/postgres/merchant_repo.go:292-298), which treats the percentage as an amount and does not agree with hydration.
- RSS fields other than the shipping annotation.
- Hub: shutdown, and reading and writing of sockets; what follows a stuck loop or a panic is left out.
- ImageScheduler: what processing an image does; each file's outcome is given.
- RateLimiter: resets after a successful login, and the other limiters built on the same counter; keys of different addresses that print alike share a counter as they do in Redis.
- EmailVerification: code generation and delivery.
- Homepage: GeneratedAt is not part of the page, and reads and writes do not overlap.
- Notification, wishlist, review, cart and plain CRUD code, configuration, routing and HTTP handlers.
