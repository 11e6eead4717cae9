# Oxyn: a verified model of its core

Oxyn is a database client whose Rust crates keep a catalog cache, buffer query results, print and
read identifiers and literals, fence untrusted text, and run AI agents under a privacy tier and a
policy gate. This project models the parts where behaviour is decided by state, parsing, concurrency
or arithmetic, and proves what those parts promise. `dafny verify dfyconfig.toml` checks everything.

| Component | Modules |
|---|---|
| Hierarchical cancellation | `CancelProtocol` (all interleavings of cancellers, waiters, creators and droppers), `CancelTree` (one canceller, in place) |
| Catalog cache | `OrderedMaps`, `CatalogTree`, `CatalogStaleness`, `CatalogDefinitions`, `CatalogLaws`, `CatalogReadings`, `CatalogMinimality` (specification and laws), `Cache` (the class) |
| Result buffer | `BufferIndexes`, `PageCaches` (pages read back, least recently used first out), `Buffer` (the class, one producer), `BufferProducers` (interleaved pushes), `SpillQuotas` (the bound on the file) |
| Printers and their readers | `Quoting`, `Dialects` (how each dialect reads), `Paths`, `Insertion`, `Literals` |
| Neutralising untrusted text | `TagScanner` (any word, any reading of characters), `Untrusted` (the marker, sanitising, the fence), `MarkerVariants` (what is taken for the marker) |
| Cutting nested types | `Nesting` |
| Agent context | `ContextFields` (field accounting), `ContextBudget` (the token budget) |
| Agent loop | `AgentTools` (the registry and its translators), `AgentProtocol` (one call under the tier), `AgentHistory` (acceptors for messages and events), `AgentStreams` (what a turn keeps of its stream), `AgentLoop` (the class) |
| Search | `Words`, `SearchScores`, `SearchRanking`, `SearchAnswers` (when two answers rank above a perfect one) |
| Policy gate | `Commands`, `Policy` |
| Shared | `Options`, `Characters`, `Machine` |

How the parts are modelled:

* **Concurrency.** Each atomic or locked section is one step; `notify_waiters` wakes the registered
  waiters. Runs are arbitrary sequences of enabled steps by any number of threads or producers.
* **The outside.** Clocks, providers, the command bus, disk outcomes, memory measurements and the
  renderings of single objects are inputs, quantified over: `AgentProtocol.World` answers every
  question the agent loop asks, `SpillOutcome` and `ReadOutcome` decide every disk access.
* **Readers.** Reading back is stated against independent lexers: delimited identifiers and character
  strings of ISO/IEC 9075-2 (sections 5.2 and 5.3) and their MySQL, BigQuery and PostgreSQL variants.

## Where the code does less than its text says

* `CancelToken`'s header says a parent cancels all its descendants. A descendant below a token that
  was dropped escapes (`CancelProtocol.DroppedMiddleEscapes`); along live tokens it cannot
  (`CancelProtocol.DescendantsAreCancelled`). One call of `cancel` reaches a token if and only if a
  chain of live tokens not cancelled before leads to it (`CancelTree.Cancel`).
* `stale_at` promises scopes that do not cover one another. As `contains` reads them they can: a missing
  level is a wildcard. Among the runs that use given names, one gets scopes covering one another if and
  only if the catalogs, or the namespaces used under some catalog, mix the missing level with a name
  (`CatalogMinimality.MinimalExactlyWhenUnmixed`). The runs that do are short: list under the missing
  level and under a name, then invalidate the server.
* Backquotes are doubled for BigQuery, which reads escapes instead. Right exactly for names without
  backquote or backslash (`Dialects.IdentifierReadsBack`); so a qualified or inserted path is read as its
  levels in BigQuery exactly when none of them holds one, and always elsewhere (`Paths.DialectReadsBack`,
  `Insertion.InsertionReadsBack`).
* With MySQL's backslash escapes off, a literal ends at the same quote but decodes to the value only
  if it holds no backslash (`Literals.MySqlEndsAtTheSameQuote`).
* The row limit and the memory budget are checked when a push is planned, not when it is published. The
  row limit holds in every run if and only if there is at most one producer, or the limit is absent, 0 or
  the machine's largest number (`BufferProducers.RowLimitHoldsExactly`); the resident budget likewise,
  or when no row may be kept (`BufferProducers.BudgetHoldsExactly`).
* The spill quota charges what a batch weighs in memory, then counts what it took in the file. With one
  producer it holds in every run if and only if the file never takes more than was charged, or the quota
  is absent or the machine's largest number, or nothing is ever spilled
  (`SpillQuotas.QuotaHoldsExactly`). Else a batch charged the whole quota goes over by a byte, alone or
  behind one that fills memory (`SpillQuotas.GoesOverAlone`, `SpillQuotas.GoesOverBehind`).
* `search`'s documentation says a relation answering two terms comes before one answering a single term
  perfectly. It does if and only if its two answers outweigh a perfect one, or are whole words of the name
  and a comment and its path comes first (`SearchAnswers.AnsweringBothRanksAboveExactly`, and of the order
  a search returns `SearchAnswers.AnsweringBothComesFirstExactly`). Answers outweigh a perfect one when one
  is the name or its beginning; or whole words of the name beside anything but a comment; or beginnings of
  the name's words, or a whole field, beside anything but a comment or the beginning of a field's word; or
  the beginnings of two fields. Searching "lot price", `shop.sale` with the columns
  `m_lot` and `m_price` comes after `stock.lot` (`SearchAnswers.AnsweringBothCanComeSecond`).
* The gate is closed by default only for commands that run against a server. Forgetting a connection
  loosens exactly the mutating workspace commands its production marking held
  (`Policy.ForgettingLoosensExactly`).

## Model

| member | source | states |
|---|---|---|
| `CancelProtocol.StepKeepsInv` | crates/oxyn-core/src/cancel.rs:58-165 | every atomic step of every thread keeps the protocol invariant, which accounts for children still listed, taken by a canceller, or being created under the lock |
| `CancelProtocol.RunKeepsInv` | crates/oxyn-core/src/cancel.rs:74-156 | the invariant holds after every run from the start |
| `CancelProtocol.DescendantsAreCancelled` | crates/oxyn-core/src/cancel.rs:74-94 | once no cancel is in flight, every descendant of a cancelled token reached through live tokens is cancelled |
| `CancelProtocol.CancelTakesEffect` | crates/oxyn-core/src/cancel.rs:70-94 | once no cancel is in flight, every token cancel was called on is cancelled, and so is every descendant reached through live tokens |
| `CancelProtocol.DroppedMiddleEscapes` | crates/oxyn-core/src/cancel.rs:139-156 | a run in which a live grandchild stays uncancelled because the token between was dropped before its grandparent was cancelled |
| `CancelProtocol.CancelledOnlyIfAsked` | crates/oxyn-core/src/cancel.rs:70-94 | no token is cancelled unless cancel was called on it or on a token it descends from |
| `CancelProtocol.NoWaiterIsStuck` | crates/oxyn-core/src/cancel.rs:109-131 | no wake-up is lost: a waiter on a cancelled token can go on, or a canceller can take the very step that wakes it |
| `CancelProtocol.WaitEndsCancelled` | crates/oxyn-core/src/cancel.rs:109-131 | in every run, the only step that ends a wait is the waiter's own, and its token is cancelled before and after it |
| `CancelProtocol.WaitReturnsSoon` | crates/oxyn-core/src/cancel.rs:109-131 | whatever the others do, a wait on a cancelled token returns within as many of its own steps as were left, at most two |
| `CancelProtocol.WaitOnCancelledReturns` | crates/oxyn-core/src/cancel.rs:98-131 | a wait begun on a cancelled token returns at its first step, any other by its second once the token is cancelled |
| `CancelProtocol.NotifyWakesExactly` | crates/oxyn-core/src/cancel.rs:74-94 | a notification wakes every waiter registered on its token and nobody else |
| `CancelProtocol.CancellersCanGoOn` | crates/oxyn-core/src/cancel.rs:74-94 | a canceller is blocked only by a lock whose holder can take its next step |
| `CancelProtocol.CancelStepWorks` | crates/oxyn-core/src/cancel.rs:74-94 | each canceller step strictly lessens the work left |
| `CancelProtocol.OtherStepWorks` | crates/oxyn-core/src/cancel.rs:70-156 | any other step adds no more work than the call or creation it is |
| `CancelProtocol.PropagationTerminates` | crates/oxyn-core/src/cancel.rs:74-94 | over any run, canceller steps are bounded by the work at the start and the work calls and creations added |
| `CancelProtocol.FinishedChildrenAreForgotten` | crates/oxyn-core/src/cancel.rs:139-156 | creating a child forgets exactly the children nothing holds any more |
| `CancelProtocol.HandlesAreCounted` | crates/oxyn-core/src/cancel.rs:54-67 | a token is born with one handle, each clone adds one and each drop takes one |
| `CancelTree.CancelInner` | crates/oxyn-core/src/cancel.rs:74-94 | the worklist loop, in place: it cancels the start, only tokens reached through live uncancelled ones, and leaves every live child of a newly cancelled token cancelled |
| `CancelTree.Cancel` | crates/oxyn-core/src/cancel.rs:70-94 | one call cancels exactly what was reached through live, uncancelled tokens; a second call changes nothing |
| `Cache.CatalogCache.SetCatalogs` | crates/oxyn-catalog/src/cache.rs:460-482 | the in-place re-listing gives the specified tree |
| `Cache.CatalogCache.SetNamespaces` | crates/oxyn-catalog/src/cache.rs:489-512 | the in-place re-listing of one catalog, created if missing, gives the specified tree |
| `Cache.CatalogCache.SetRelations` | crates/oxyn-catalog/src/cache.rs:519-552 | the in-place re-listing of a namespace, or the error and no change when the path names a relation |
| `Cache.CatalogCache.SetRelation` | crates/oxyn-catalog/src/cache.rs:560-575 | a described relation, its types cut at the nesting bound, missing levels created; or the error and no change |
| `Cache.CatalogCache.SetReading` | crates/oxyn-catalog/src/cache.rs:578-654 | indexes, keys, constraints or a definition recorded on a known relation, or the exact error and no change |
| `Cache.CatalogCache.CollectDefinitions` | crates/oxyn-catalog/src/cache.rs:664-690 | the walk collects every held definition, with their exact count and saturated size |
| `Cache.CatalogCache.EvictDefinitions` | crates/oxyn-catalog/src/cache.rs:664-703 | the eviction loop terminates and gives the trimmed tree |
| `Cache.CatalogCache.StaleAt` | crates/oxyn-catalog/src/cache.rs:869-911 | the nested loops give the specified scopes |
| `Cache.CatalogCache.Invalidate` | crates/oxyn-catalog/src/cache.rs:921-965 | in-place invalidation gives the marked tree |
| `Cache.CatalogCache.Forget` | crates/oxyn-catalog/src/cache.rs:977-1027 | in-place removal gives the specified tree |
| `Cache.CatalogCache.Evict` | crates/oxyn-catalog/src/cache.rs:1032-1082 | in-place eviction gives the specified tree |
| `CatalogStaleness.StaleScopesAreTheRoots` | crates/oxyn-catalog/src/cache.rs:869-911 | the scopes returned are exactly the stale places with nothing stale above them; never-read places are not stale |
| `CatalogStaleness.StaleScopesDistinct` | crates/oxyn-catalog/src/cache.rs:869-911 | no scope is returned twice |
| `CatalogStaleness.EverythingStaleIsCovered` | crates/oxyn-catalog/src/cache.rs:869-911 | everything stale lies at or under a returned scope, also as contains reads it |
| `CatalogReadings.StaleExactlyWhenOld` | crates/oxyn-catalog/src/cache.rs:199-211 | a place is stale if and only if something read there is invalidated or was fetched more than the lifetime ago |
| `CatalogReadings.BeyondTheClockExactly` | crates/oxyn-catalog/src/cache.rs:199-211 | for a lifetime beyond the clock, a place is stale if and only if something there was invalidated |
| `CatalogReadings.BeyondTheClockNothingAges` | crates/oxyn-catalog/src/cache.rs:869-911 | so where nothing was invalidated no scope is returned then |
| `CatalogReadings.StalenessGrows` | crates/oxyn-catalog/src/cache.rs:869-911 | later, or for a shorter lifetime, every scope returned before lies in one that is returned |
| `CatalogReadings.ReadingIsDated` | crates/oxyn-catalog/src/cache.rs:443-655 | every listing, description and reading is dated with the instant it was given |
| `CatalogReadings.ReadingAges` | crates/oxyn-catalog/src/cache.rs:869-911 | what an operation read at x is returned at now if and only if now > x + lifetime, nothing else being old; and it is then its own scope |
| `CatalogStaleness.UnmixedIsMinimal` | crates/oxyn-catalog/src/cache.rs:381-398 | when no level mixes the missing key with names, no returned scope contains another |
| `CatalogMinimality.RunStaysWithin` | crates/oxyn-catalog/src/cache.rs:433-1082 | a run only ever holds nodes of the names its operations use |
| `CatalogMinimality.MixedCatalogsCover` | crates/oxyn-catalog/src/cache.rs:381-398 | for every named catalog, a run after which one stale scope contains another |
| `CatalogMinimality.MixedNamespacesCover` | crates/oxyn-catalog/src/cache.rs:381-398 | for every catalog and every named namespace of it, a run after which one stale scope contains another |
| `CatalogMinimality.MinimalExactlyWhenUnmixed` | crates/oxyn-catalog/src/path.rs:515-523 | of the runs using given names, some gets scopes one of which contains another if and only if those names mix the missing level with a named one |
| `CatalogStaleness.MarksExactly` | crates/oxyn-catalog/src/cache.rs:921-965 | invalidation changes the freshness of exactly the places under the scope |
| `CatalogStaleness.InvalidatesExactly` | crates/oxyn-catalog/src/cache.rs:199-222 | every read place under the scope is stale at every time and lifetime, never-read ones stay so, all others keep their freshness |
| `CatalogStaleness.InvalidatingKeepsValues` | crates/oxyn-catalog/src/cache.rs:921-965 | invalidation changes no stored value |
| `CatalogStaleness.ForgetsExactly` | crates/oxyn-catalog/src/cache.rs:977-1027 | the subtree becomes never read, the parent listing stale, every other freshness unchanged |
| `CatalogStaleness.EvictsExactly` | crates/oxyn-catalog/src/cache.rs:1032-1082 | exactly what was dropped, and everything of a node that no listing carries and that holds nothing more, reads as never fetched; every other freshness is unchanged |
| `CatalogDefinitions.TrimmingTouchesOnlyDefinitions` | crates/oxyn-catalog/src/cache.rs:664-703 | eviction changes nothing but definitions, each of which stays or becomes unread |
| `CatalogDefinitions.ProtectedSurvives` | crates/oxyn-catalog/src/cache.rs:664-703 | the protected definition survives eviction |
| `CatalogDefinitions.OldestGoFirst` | crates/oxyn-catalog/src/cache.rs:664-703 | no unprotected survivor is older than an evicted definition, invalidated ones going first |
| `CatalogDefinitions.TrimmedFits` | crates/oxyn-catalog/src/cache.rs:59-60 | what is left is within 16 definitions and 16 MiB, or is the protected one alone |
| `CatalogDefinitions.HeldOnce` | crates/oxyn-catalog/src/cache.rs:664-690 | the walk meets no definition twice |
| `CatalogDefinitions.PublishedFits` | crates/oxyn-catalog/src/cache.rs:644-655 | a written definition is read back; at most 16 remain; they exceed 16 MiB if and only if the one written does alone |
| `CatalogDefinitions.ValidatedAlwaysFits` | crates/oxyn-catalog/src/definition.rs:47-58 | a validated definition always leaves the store within both limits |
| `CatalogDefinitions.DefinitionWeighs` | crates/oxyn-catalog/src/cache.rs:67-74 | a definition weighs its text and all its notes, saturating |
| `CatalogLaws.RelistKeys` | crates/oxyn-catalog/src/cache.rs:460-482 | the keys of a re-listed level are the listing, in order |
| `CatalogLaws.RelistValue` | crates/oxyn-catalog/src/cache.rs:460-482 | which item of a repeated name is kept, and whether it keeps what was known |
| `CatalogLaws.ListedOnceKeeps` | crates/oxyn-catalog/src/cache.rs:519-552 | a listed name keeps what was known exactly when the listing names it once |
| `CatalogLaws.RelistingKeepsCatalogs` | crates/oxyn-catalog/src/cache.rs:460-482 | with distinct names the catalogs are the listing, in order, and each that stays keeps its subtree |
| `CatalogLaws.RelistingKeepsNamespaces` | crates/oxyn-catalog/src/cache.rs:489-512 | with distinct names the namespaces of a catalog are the listing, in order, each that stays keeps its subtree, and no other catalog changes |
| `CatalogLaws.RelistingKeepsDetails` | crates/oxyn-catalog/src/cache.rs:519-552 | with distinct names the level is the listing, in order, and each relation that stays keeps everything read of it |
| `CatalogLaws.DescribedIsBounded` | crates/oxyn-catalog/src/cache.rs:553-575 | a described relation is found with its description; no field nests past 32 levels, and one that did not is stored as read |
| `CatalogReadings.DescriptionIsReadBack` | crates/oxyn-catalog/src/cache.rs:553-575 | a description comes back cut at the bound; nothing else of a known relation changes, and a new one has nothing else |
| `CatalogReadings.ServerIsReadBack` | crates/oxyn-catalog/src/cache.rs:442-455 | the server's identity and the resolution path come back as themselves, and nothing else changes |
| `CatalogReadings.MissingLevelsAreCreated` | crates/oxyn-catalog/src/cache.rs:1149-1180 | levels missing above it are created unread, with the names of its path; those there keep their own line and date |
| `CatalogReadings.ReadingIsReadBack` | crates/oxyn-catalog/src/cache.rs:578-640 | indexes, foreign keys, constraints and incoming keys each come back as themselves; nothing else of the relation changes, and no other relation |
| `CatalogReadings.DefinitionIsReadBack` | crates/oxyn-catalog/src/cache.rs:644-655 | a definition comes back as itself, and nothing else of its relation changes |
| `CatalogReadings.ForgottenIsGone` | crates/oxyn-catalog/src/cache.rs:977-1027 | a forgotten node is not found any more; every other one of its level is found as it was |
| `CatalogReadings.ForgottenPartIsGone` | crates/oxyn-catalog/src/cache.rs:996-1012 | a forgotten part of a relation holds nothing; everything else of it, and every other relation, is as it was |
| `CatalogReadings.EvictedRelationIsEmpty` | crates/oxyn-catalog/src/cache.rs:1057-1076 | an evicted relation loses its description, indexes and foreign keys only, and goes exactly when no listing carries it and nothing else is held |
| `CatalogReadings.EvictedLevelIsEmpty` | crates/oxyn-catalog/src/cache.rs:1036-1056 | an evicted catalog or namespace holds nothing and keeps its line, and goes exactly when its level was never listed |
| `CatalogReadings.DroppedServerIsEmpty` | crates/oxyn-catalog/src/cache.rs:977-1035 | forgetting or evicting the server leaves nothing at all |
| `CatalogLaws.StepKeepsPlaces` | crates/oxyn-catalog/src/cache.rs:433-700 | every operation keeps every node at its own path |
| `CatalogLaws.NodesAreAtTheirPaths` | crates/oxyn-catalog/src/cache.rs:1149-1201 | after any run, looking a catalog, namespace or relation up by the name or path it carries finds it |
| `CatalogLaws.OthersBringNone` | crates/oxyn-catalog/src/cache.rs:433-1082 | no operation but writing a definition makes one appear or changes one |
| `CatalogLaws.StoreStaysBounded` | crates/oxyn-catalog/src/cache.rs:644-703 | over every run with validated definitions, the store stays within 16 definitions and 16 MiB |
| `BufferIndexes.StartsAreOffsets` | crates/oxyn-data/src/buffer.rs:276-289 | the starts begin at 0 and increase strictly |
| `BufferIndexes.LocatedRow` | crates/oxyn-data/src/buffer.rs:580-595 | a located row is that row of the concatenation of batches, and there is one location |
| `BufferIndexes.PublishingAppends` | crates/oxyn-data/src/buffer.rs:276-289 | publishing keeps the index describing the batches, with the new one at the end |
| `BufferIndexes.LocationIsStable` | crates/oxyn-data/src/buffer.rs:276-289 | publishing moves no located row |
| `Buffer.ResultBuffer.Push` | crates/oxyn-data/src/buffer.rs:475-526 | takes a batch if and only if it can be taken, else refuses it for a reason that holds and changes nothing; adds exactly the rows the limit leaves and says so when they are fewer than offered; stays in memory exactly when it fits there |
| `Buffer.ResultBuffer.TakenExactly` | crates/oxyn-data/src/buffer.rs:227-273 | a batch with rows is taken if and only if it has the schema, the buffer is open and below the row limit, and it fits memory, or may spill with room in the quota and no write failure; else the first reason, in this order, is given |
| `Buffer.ResultBuffer.CheckPressure` | crates/oxyn-data/src/buffer.rs:416-437 | names the first reason no more batches are taken |
| `Buffer.ResultBuffer.PressureExactly` | crates/oxyn-data/src/buffer.rs:416-437 | complete and row limit are answered exactly when they hold; when ready, a batch of a row and a byte is taken |
| `Buffer.ResultBuffer.PressureRefuses` | crates/oxyn-data/src/buffer.rs:227-273 | when not ready, every batch with rows and a positive size is refused |
| `Buffer.ResultBuffer.MarkComplete` | crates/oxyn-data/src/buffer.rs:543-560 | completes the index; each figure is the measured one, or the one counted when none was measured; truncation is what was measured or already seen |
| `Buffer.ResultBuffer.Locate` | crates/oxyn-data/src/buffer.rs:580-595 | the binary search finds the row, and fails exactly past the end |
| `PageCaches.Get` | crates/oxyn-data/src/spill.rs:236-243 | finds a page if and only if it is there, and makes it the most recently used; no page comes or goes |
| `PageCaches.Insert` | crates/oxyn-data/src/spill.rs:245-268 | evicts the least recently used pages and no more than needed; a page too large for the whole cache, or already there, changes nothing |
| `Buffer.ResultBuffer.BatchAt` | crates/oxyn-data/src/buffer.rs:606-648 | the accepted batch, whether resident, cached or spilled, or the read failure |
| `Buffer.ResultBuffer.ReadRow` | crates/oxyn-data/src/buffer.rs:751-770 | row r of the concatenation, through any spilling, loading and eviction |
| `Buffer.ResultBuffer.LoadPage` | crates/oxyn-data/src/buffer.rs:668-700 | has the batch at hand exactly when it was in memory, or small enough for the cache and read without incident; false exactly past the end; an oversized page leaves the cache as it was |
| `Buffer.ResultBuffer.ResidentWithinBudget` | crates/oxyn-data/src/buffer.rs:111-121 | the bytes of resident batches are what is counted, within the resident budget |
| `Buffer.ResultBuffer.MemoryIsShared` | crates/oxyn-data/src/buffer.rs:81-121 | resident batches and cached pages together stay within the memory budget |
| `Buffer.ResultBuffer.QuarterForTheCache` | crates/oxyn-data/src/buffer.rs:111-121 | the cache is given a quarter of the budget rounded down when the buffer may spill, else none |
| `Buffer.ResultBuffer.RowsWithinLimit` | crates/oxyn-data/src/buffer.rs:227-273 | rows stay within the limit, are a prefix of those offered, and a shortfall sets truncated |
| `BufferProducers.StepKeepsInv` | crates/oxyn-data/src/buffer.rs:475-526 | every phase of every push keeps the index, the file and what producers hold consistent |
| `BufferProducers.IndexStaysConsistent` | crates/oxyn-data/src/buffer.rs:276-289 | in every interleaving: starts are the sums of the sizes before, increasing from 0, and slots hold their batches |
| `BufferProducers.LocatedForever` | crates/oxyn-data/src/buffer.rs:580-595 | in every interleaving a located row keeps its location and batch for ever after |
| `BufferProducers.NothingAfterComplete` | crates/oxyn-data/src/buffer.rs:543-560 | once complete, nothing is published |
| `BufferProducers.FailedWriteChangesNothing` | crates/oxyn-data/src/buffer.rs:505-512 | a push whose write fails leaves everything as it was |
| `BufferProducers.TruncatedForever` | crates/oxyn-data/src/buffer.rs:543-560 | a truncation once seen is never withdrawn |
| `BufferProducers.LimitsHoldAlone` | crates/oxyn-data/src/buffer.rs:475-526 | with at most one producer the row limit and the resident budget hold after every run |
| `BufferProducers.RowLimitHoldsExactly` | crates/oxyn-data/src/buffer.rs:475-526 | the row limit holds in every run of n producers if and only if n is at most one, or the limit is absent, 0 or the machine maximum |
| `BufferProducers.BudgetHoldsExactly` | crates/oxyn-data/src/buffer.rs:475-526 | the resident budget holds in every run of n producers if and only if n is at most one, or no row may be kept, or the budget is 0 or the machine maximum |
| `SpillQuotas.ChargedIsEnough` | crates/oxyn-data/src/buffer.rs:227-289 | with one producer and a file that takes no more than was charged, what is planned or placed always still fits the quota |
| `SpillQuotas.QuotaHoldsExactly` | crates/oxyn-data/src/buffer.rs:256-289 | with one producer the spill quota holds in every run, where a batch takes at most `overhead` bytes more in the file than was charged, if and only if the overhead is 0, or the quota is absent or the machine maximum, or the limits let nothing be spilled |
| `SpillQuotas.GoesOverAlone` | crates/oxyn-data/src/buffer.rs:256-289 | where memory is smaller than the quota, one batch charged all of it goes over |
| `SpillQuotas.GoesOverBehind` | crates/oxyn-data/src/buffer.rs:256-289 | else, when a second row may come, such a batch goes over behind one that fills memory |
| `TagScanner.MatchWord` | crates/oxyn-ai/src/untrusted.rs:193-224 | the inner loop finds a match exactly where the reading gives the word, and where it ends |
| `TagScanner.Rewrite` | crates/oxyn-ai/src/untrusted.rs:193-224 | the index loop produces the left-to-right rewriting |
| `TagScanner.MatchIsTag` | crates/oxyn-ai/src/untrusted.rs:193-224 | matching is reading: a match ends exactly where the visible letters, ignored characters dropped, spell the word |
| `TagScanner.NoTagIffNoMatch` | crates/oxyn-ai/src/untrusted.rs:193-224 | no position matches exactly when no stretch of the text reads as the word |
| `TagScanner.RewrittenHasNoTag` | crates/oxyn-ai/src/untrusted.rs:193-224 | for any word and replacement that blocks it, the rewritten text has no match anywhere and is a fixed point |
| `TagScanner.OnlyTagsAreRewritten` | crates/oxyn-ai/src/untrusted.rs:193-224 | the text splits into kept characters and whole tags, and only the tags change |
| `Untrusted.NeutralizeMarker` | crates/oxyn-ai/src/untrusted.rs:193-224 | the scanner on the marker, modulo folding and format characters |
| `Untrusted.ReplacementBlocksTags` | crates/oxyn-ai/src/untrusted.rs:41-44 | the replacement, beside any text, starts, ends or holds no match |
| `Untrusted.NeutralizedHasNoTag` | crates/oxyn-ai/src/untrusted.rs:193-224 | no match is left for any input, and neutralising is idempotent |
| `MarkerVariants.ReadAsExactly` | crates/oxyn-ai/src/untrusted.rs:226-278 | a character is read as a letter of the marker if and only if it is visible and is that letter, its capital, a fullwidth form, a listed look-alike or dash |
| `MarkerVariants.VariantReadsAsMarker` | crates/oxyn-ai/src/untrusted.rs:193-224 | a stretch reads as the marker if and only if what is seen of it imitates the marker letter by letter |
| `MarkerVariants.NoVariantSurvives` | crates/oxyn-ai/src/untrusted.rs:22-30 | no case, fullwidth, dash or look-alike variant is left anywhere, invisible characters in it or not |
| `MarkerVariants.OnlyVariantsChange` | crates/oxyn-ai/src/untrusted.rs:193-224 | a text without a variant is left as it is |
| `Untrusted.StripControls` | crates/oxyn-ai/src/untrusted.rs:146-157 | every control character but the kept ones becomes a space, nothing else changes |
| `Untrusted.StripsExactly` | crates/oxyn-ai/src/untrusted.rs:146-157 | codes below 32 and from 127 to 159 become spaces but for tab and line feed, and nothing else |
| `Untrusted.SanitizedIsClean` | crates/oxyn-ai/src/untrusted.rs:105-108 | a sanitised text has no match and no control character, and sanitising is idempotent |
| `Untrusted.ClampedNoMatch` | crates/oxyn-ai/src/untrusted.rs:117-135 | cutting and marking the cut makes no match |
| `Untrusted.InlineIsSafe` | crates/oxyn-ai/src/untrusted.rs:141-143 | an inlined text has no match and no line break, and is the value or its beginning with the mark of the cut |
| `Untrusted.FenceOpensAndClosesOnce` | crates/oxyn-ai/src/untrusted.rs:72-97 | for any content and newline-free nonce, the opening tag occurs only at the start and the closing tag only at the end |
| `Untrusted.NoncesTellFencesApart` | crates/oxyn-ai/src/untrusted.rs:60-97 | the tags are the marker's with the nonce, and no two nonces share either |
| `Quoting.QuoteIdentifier` | crates/oxyn-catalog/src/path.rs:168-199 | the loop doubles the closing character, or escapes, in each style |
| `Quoting.QuotedReadsBack` | crates/oxyn-catalog/src/path.rs:168-199 | a lexer reads a quoted name back as itself if and only if what follows does not start with its closing quote |
| `Quoting.BigQueryReadsBack` | crates/oxyn-catalog/src/path.rs:143-160 | read as BigQuery reads it, the backquoted form is right if and only if the name has no backquote or backslash |
| `Quoting.DottedReadsBack` | crates/oxyn-catalog/src/path.rs:472-484 | names that each read back are read back joined by dots |
| `Quoting.DottedReadsBackExactly` | crates/oxyn-catalog/src/path.rs:472-484 | joined by dots, names are all read back if and only if each one is |
| `Dialects.IdentifierReadsBack` | crates/oxyn-catalog/src/path.rs:143-199 | read as the dialect itself reads, what is written for a dialect is the name and nothing more if and only if the dialect is not BigQuery or the name has no backquote or backslash; else it is another name, if any |
| `Paths.SplitSegments` | crates/oxyn-catalog/src/path.rs:579-633 | the character loop with its quote states computes the reader |
| `Paths.Parse` | crates/oxyn-catalog/src/path.rs:650-674 | parsing gives the path or the exact error |
| `Paths.LevelExactly` | crates/oxyn-catalog/src/path.rs:579-633 | nothing written is a missing level, nothing quoted is refused, and so is a level with a control character; any other is the name |
| `Paths.UnterminatedIsRefused` | crates/oxyn-catalog/src/path.rs:579-633 | a quote never closed is refused |
| `Paths.QuoteInMiddleIsRefused` | crates/oxyn-catalog/src/path.rs:579-633 | so is a quote opened after other characters of a level |
| `Paths.NoSeparatorIsRefused` | crates/oxyn-catalog/src/path.rs:579-633 | and anything but a dot after a quoted level |
| `Paths.ParsingUndoesPrinting` | crates/oxyn-catalog/src/path.rs:528-563 | parsing the printed form of any valid path gives it back, holes and trailing missing levels included |
| `Paths.PrintingIsInjective` | crates/oxyn-catalog/src/path.rs:542-563 | two valid paths never print alike |
| `Paths.AcceptedIsValid` | crates/oxyn-catalog/src/path.rs:579-674 | an accepted text denotes non-empty, control-free levels, and its reprinted form denotes the same |
| `Paths.Qualify` | crates/oxyn-catalog/src/path.rs:472-484 | the loop joins the quoted present levels with dots |
| `Paths.QualifiedReadsBack` | crates/oxyn-catalog/src/path.rs:472-484 | for every quoting style but bare, a lexer reads back exactly the present levels |
| `Paths.DialectReadsBack` | crates/oxyn-catalog/src/path.rs:472-491 | qualified for a dialect, a path is read by it as exactly its present levels if and only if the dialect misreads none of them |
| `Paths.QualifySqlIsInjective` | crates/oxyn-catalog/src/path.rs:488-491 | in every dialect, different levels qualify differently |
| `Literals.FirstRefusedDecides` | crates/oxyn-catalog/src/literal.rs:168-176 | a text is refused if and only if it holds a refused character, and the first decides the error |
| `Literals.RefusedExactly` | crates/oxyn-catalog/src/literal.rs:168-176 | a value is refused if and only if it holds a code below 32 or from 127 to 159 other than tab, line feed and carriage return; the first one decides the error |
| `Literals.PushStringLiteral` | crates/oxyn-catalog/src/literal.rs:117-149 | appends the literal, or leaves the buffer exactly as it was |
| `Literals.LiteralReadsBack` | crates/oxyn-catalog/src/literal.rs:66-149 | in every dialect a lexer reads one literal, ending at the last quote and decoding to the value, if and only if what follows does not prolong it; standard-conforming strings on or off |
| `Literals.MySqlEndsAtTheSameQuote` | crates/oxyn-catalog/src/literal.rs:91-110 | with backslash escapes off the MySQL literal ends at the same quote, and decodes to the value if and only if it has no backslash |
| `Insertion.BinarySearch` | crates/oxyn-catalog/src/reserved.rs:756-765 | over a strictly ascending list the search answers membership |
| `Insertion.LooksUpReserved` | crates/oxyn-catalog/src/reserved.rs:756-772 | whether a word is reserved in a dialect, or unknown without a list |
| `Insertion.RecordedDialects` | crates/oxyn-catalog/src/reserved.rs:756-772 | which dialects have recorded words, and whose |
| `Insertion.InsertionReadsBack` | crates/oxyn-catalog/src/insertion.rs:49-54 | an inserted path is read, without regard to case and as the dialect reads, as exactly its present levels if and only if the dialect misreads none of them |
| `Insertion.BareExactlyWhenSafe` | crates/oxyn-catalog/src/insertion.rs:49-54 | a name goes in bare if and only if it is a plain word of a dialect with a list and is not reserved there |
| `Nesting.Bound` | crates/oxyn-catalog/src/nesting.rs:22-44 | the worklist computes the recursive cut of every field, and what it cut off is dismantled once |
| `Nesting.TakeApart` | crates/oxyn-catalog/src/nesting.rs:52-62 | terminates, dropping every node of the given types exactly once |
| `Nesting.CutAt` | crates/oxyn-catalog/src/nesting.rs:14-17 | above the bound the cut type has the shape of the original; nothing lies below the bound |
| `Nesting.CutIsWithinBound` | crates/oxyn-catalog/src/nesting.rs:14-17 | nothing nests at the bound or below |
| `Nesting.WithinBoundIsKept` | crates/oxyn-catalog/src/nesting.rs:22-46 | a type within the bound is unchanged |
| `ContextFields.NestedFields` | crates/oxyn-ai/src/context.rs:962-970 | the loop through arrays finds the fields of the innermost structure |
| `ContextFields.FieldsThroughArrays` | crates/oxyn-ai/src/context.rs:962-970 | through any number of arrays, the fields are the structure's, and there are none else |
| `ContextFields.OutlineIsWhole` | crates/oxyn-ai/src/context.rs:104-110 | a field tree has fields past a level exactly when it is deeper than that |
| `ContextFields.CountNested` | crates/oxyn-ai/src/context.rs:992-1007 | counts the subfields within reach, and says the count is incomplete exactly when there are deeper ones |
| `ContextFields.RenderFieldList` | crates/oxyn-ai/src/context.rs:774-808 | lines are the first of the outline down to level 4; lines and count make up all fields if and only if the count is complete; when it may and must be incomplete |
| `ContextFields.RenderFields` | crates/oxyn-ai/src/context.rs:754-766 | a figure is announced only when it is the exact number of fields not shown |
| `ContextBudget.EstimateIsSubadditive` | crates/oxyn-ai/src/context.rs:117-119 | estimating pieces apart never costs less than estimating them together |
| `ContextBudget.Build` | crates/oxyn-ai/src/context.rs:453-530 | the four loops assemble the specified body, lists and counts |
| `ContextBudget.ChargedWithinBudget` | crates/oxyn-ai/src/context.rs:453-527 | the estimate of everything charged is at most the larger of the header cost and the budget |
| `ContextBudget.EveryRelationOnce` | crates/oxyn-ai/src/context.rs:460-495 | each selected relation is kept, omitted or withheld once; the announced count is exact; nothing withheld is described |
| `ContextBudget.OmittedDoesNotFit` | crates/oxyn-ai/src/context.rs:474-480 | no omitted relation would fit beside those kept |
| `ContextBudget.EverythingFits` | crates/oxyn-ai/src/context.rs:460-484 | when all descriptions fit together, all admitted relations are kept and described in full |
| `ContextBudget.KeptExactlyWhenFitting` | crates/oxyn-ai/src/context.rs:474-484 | an item is kept if and only if it fits what those before it left |
| `ContextBudget.MentionsAreAnswered` | crates/oxyn-ai/src/context.rs:485-496 | every mention is described or named |
| `ContextBudget.DescribedOrNamed` | crates/oxyn-ai/src/context.rs:460-484 | a relation is described when its description would fit beside the header alone, else only named |
| `ContextBudget.BodyIsInOrder` | crates/oxyn-ai/src/context.rs:453-530 | the body is the header, the relations kept, the saved queries kept, the lines naming the rest, and the rows kept; every saved query is there or named |
| `ContextBudget.NoRowLeavesBelowItsTier` | crates/oxyn-ai/src/context.rs:514-530 | where the tier forbids values the context does not depend on the rows offered, and all are counted as dropped |
| `AgentTools.CollectColumns` | crates/oxyn-ai/src/tools.rs:738-744 | the loop gives the first occurrence of each name, or the refusal of the first blank or over-long one |
| `AgentTools.TranslationNeverAborts` | crates/oxyn-ai/src/tools.rs:541-558 | whatever the model writes and however it decodes, a call the registry refuses is refused for what the model can correct |
| `AgentTools.RequestsStayInScope` | crates/oxyn-ai/src/tools.rs:611-770 | a translated call was granted, targets the connection of the scope, is a write exactly when it executes without being marked read-only, and asks for rows only as a bounded sample |
| `AgentTools.RefusalsInOrder` | crates/oxyn-ai/src/tools.rs:541-558 | unknown exactly outside the four tools, not granted exactly when known and not allowed; anything else was granted |
| `AgentTools.ExecutesAsClassified` | crates/oxyn-ai/src/tools.rs:611-650 | an executed statement is the model's, trimmed, with the classifier's intent and risk, writable exactly when they write; refused only when unreadable or blank |
| `AgentTools.DescribesAsAsked` | crates/oxyn-ai/src/tools.rs:655-680 | the words to look for are the model's, trimmed; blank ones are none, and too many are refused |
| `AgentTools.SamplesAsAsked` | crates/oxyn-ai/src/tools.rs:695-770 | a sample is asked for if and only if its names are usable and its counts within bounds, and asks for exactly what was written, five rows by default |
| `AgentProtocol.SampleShownExactly` | crates/oxyn-ai/src/runtime.rs:391-430 | a sample is rendered if and only if the tier lets values out and it fits with the header |
| `AgentProtocol.RowsReachTheModelOnlyWhenReleased` | crates/oxyn-ai/src/runtime.rs:1261-1292 | whatever the bus answers, rows reach the model only when asked for and recorded, under a tier that allows them, and the user is shown a sample exactly then |
| `AgentProtocol.ModelReadsWhatIsShownFiltered` | crates/oxyn-ai/src/runtime.rs:1211-1235 | what the model reads is what the tier lets through of exactly the facts the user is shown |
| `AgentProtocol.WithheldExactly` | crates/oxyn-ai/src/runtime.rs:441-476 | the announced gap is there if and only if a failure's message was held back |
| `AgentProtocol.WhatTheModelLearns` | crates/oxyn-ai/src/runtime.rs:350-430 | fact by fact, what the model is told under a tier |
| `AgentProtocol.TiersAndStops` | crates/oxyn-core/src/connection.rs:170-190 | which tiers let values out and remote endpoints in |
| `AgentHistory.ResultsFollowCalls` | crates/oxyn-ai/src/runtime.rs:1078-1107 | in an accepted history the messages after an assistant's calls are their results, one per call, in order |
| `AgentHistory.SubmittedThenReported` | crates/oxyn-ai/src/runtime.rs:1186-1234 | in an accepted run each announcement is followed at once by the report of the same identity, each report preceded by it, and nothing follows the end |
| `AgentHistory.IdentitiesAreDistinct` | crates/oxyn-ai/src/call.rs:30-42 | no two commands are announced under one identity |
| `AgentHistory.KeptTextWasShown` | crates/oxyn-ai/src/runtime.rs:1390-1397 | the text a turn keeps is the text that was shown, fragment by fragment |
| `AgentStreams.CallsAreTheModels` | crates/oxyn-ai/src/runtime.rs:1438-1452 | the calls of a turn are the complete and unreadable calls of its stream, one for one and in order, each with its identity, name and readability |
| `AgentStreams.ReasoningIsKeptWhole` | crates/oxyn-ai/src/runtime.rs:1412-1422 | the reasoning kept is the stream's blocks, as they came |
| `AgentStreams.TextAndRefusalAreApart` | crates/oxyn-ai/src/runtime.rs:1391-1426 | text and refusal are their own fragments, joined in order |
| `AgentStreams.FailureAndStopAreTheLast` | crates/oxyn-ai/src/runtime.rs:1453-1462 | the failure is the last error of the stream, the stop the closing event's, unspecified without one |
| `AgentStreams.ShownOneForOne` | crates/oxyn-ai/src/runtime.rs:1391-1437 | the user is shown every visible event once, in order, and nothing else |
| `AgentHistory.RowsAreAccountedFor` | crates/oxyn-ai/src/runtime.rs:1261-1292 | call by call, the model is given rows exactly when the user is told so, and then their release was recorded under that call |
| `AgentHistory.ValuesStayHome` | crates/oxyn-ai/src/failure.rs:100-107 | over whole runs in two worlds that need only render catalogs and code failures alike, under a tier without values: what the model is told depends on no row, and on no failure message but for its code |
| `AgentLoop.Conversation.SettleSample` | crates/oxyn-ai/src/runtime.rs:1261-1292 | releases at most once, and only rows the rendering kept; a failed record becomes a refusal for both readers |
| `AgentLoop.Conversation.RunToolCall` | crates/oxyn-ai/src/runtime.rs:1150-1237 | the single path of a call: what the model reads, the user sees and the record holds; a rejected call does nothing else, and one refused for what the model cannot correct returns that error with nothing done |
| `AgentLoop.EffectSays` | crates/oxyn-ai/src/runtime.rs:1150-1292 | a refused call leaves its rejection only; another its announcement and report under one identity, the gap announced exactly when a message was held back, and a release exactly for rows that were to leave |
| `AgentLoop.Conversation.ReadStream` | crates/oxyn-ai/src/runtime.rs:1381-1469 | reads to the end, the close, the budget or the cancellation, showing what it keeps |
| `AgentLoop.Conversation.OneTurn` | crates/oxyn-ai/src/runtime.rs:1352-1494 | a turn that ended well was read to its end and is unambiguous; a cancelled one proposes nothing |
| `AgentLoop.Conversation.EndPlainly` | crates/oxyn-ai/src/runtime.rs:1036-1076 | a non-empty text closes the history; a stated refusal or a refusing stop makes a refusal, a paused one a pause, anything else the answer with its stop |
| `AgentLoop.StopsExactly` | crates/oxyn-ai/src/runtime.rs:864-880 | which stops refuse and which pause |
| `AgentLoop.Conversation.SpecsFor` | crates/oxyn-ai/src/tools.rs:488-497 | fails if and only if a granted tool does not exist, naming one |
| `AgentLoop.Conversation.AnswerCall` | crates/oxyn-ai/src/runtime.rs:1085-1107 | one call adds exactly one result, under its identity, with what that call came to, unless it aborts |
| `AgentLoop.Conversation.AnswerCalls` | crates/oxyn-ai/src/runtime.rs:1085-1107 | one result per call in order, until the user cancels or a call aborts |
| `AgentLoop.Conversation.Converse` | crates/oxyn-ai/src/runtime.rs:1010-1111 | at most max_turns turns; whole groups but for the last of a run cut short; events in order; a cancellation seen ends the run as cancelled; an error only for a refused endpoint, a missing granted tool, a failed, overrun or ambiguous stream, or an aborting call, and always for the first two |
| `AgentLoop.Conversation.Run` | crates/oxyn-ai/src/runtime.rs:992-1002 | Finished exactly once and last, exactly on success; an error only for one of the four reasons; the calls whose rows the user is told were sent are, one by one, those whose release was recorded, and none where the tier forbids them; report by report the model was told what the tier lets through of what the user saw; each reply kept is what the model said in its turn |
| `AgentLoop.NoCallAborts` | crates/oxyn-ai/src/runtime.rs:1163-1171 | with the built-in registry no call ends a conversation |
| `AgentLoop.FailuresLeaveWholeGroups` | crates/oxyn-ai/src/runtime.rs:1010-1111 | hence a conversation that ends in an error leaves whole groups, and failed for its endpoint, its tools or its stream |
| `Words.CaseWords` | crates/oxyn-catalog/src/search.rs:446-474 | the words of a segment spell it, and a word begins exactly where starts_a_word says |
| `Words.NameWords` | crates/oxyn-catalog/src/search.rs:438-443 | no word is empty; letters and digits come out in order, cut exactly at separators and case changes |
| `Words.NothingIsLost` | crates/oxyn-catalog/src/search.rs:438-443 | joining the words gives the letters and digits of the name |
| `Words.OneWayToCut` | crates/oxyn-catalog/src/search.rs:476-494 | letters and cuts determine the words |
| `Words.CamelCaseIsCut` | crates/oxyn-catalog/src/search.rs:476-494 | in camel case a word begins exactly at each capital after the first |
| `Words.AcronymsAreNotCut` | crates/oxyn-catalog/src/search.rs:476-494 | capitals alone, with a plural s or not, and small letters alone are one word |
| `Words.WordAfterAcronym` | crates/oxyn-catalog/src/search.rs:476-494 | a word after an acronym begins with its last capital |
| `Words.DigitsEndWords` | crates/oxyn-catalog/src/search.rs:476-494 | a capital after a digit begins a word; nothing but a capital does |
| `SearchScores.RunScore` | crates/oxyn-catalog/src/search.rs:384-411 | the level is exact if a run of words equals the term, prefix if one does but for its last word, none otherwise |
| `SearchScores.ScoreName` | crates/oxyn-catalog/src/search.rs:364-372 | the best level of a name |
| `SearchScores.Rate` | crates/oxyn-catalog/src/search.rs:290-356 | a hit if and only if a term is answered; its score is the mean of the best answers, in ]0, 1]; the fields named are exactly those that answer, once each |
| `SearchRanking.OutranksIsStrictTotal` | crates/oxyn-catalog/src/search.rs:231-235 | the ranking is a strict total order on different paths |
| `SearchRanking.PathsAreOrderedByLevel` | crates/oxyn-catalog/src/path.rs:242-248 | paths are ordered by catalog, namespace, relation, a missing level first |
| `SearchRanking.Hits` | crates/oxyn-catalog/src/search.rs:224-229 | rates every relation of an accepted kind; exactly the candidates are kept, each with what it answered |
| `SearchRanking.CandidatesExactly` | crates/oxyn-catalog/src/search.rs:224-229 | a relation is a candidate if and only if its kind is accepted, it answers some term and its mean reaches the threshold |
| `SearchRanking.Search` | crates/oxyn-catalog/src/search.rs:213-238 | the results are the first `limit` of the ranking of the candidates, each telling how its relation answered |
| `SearchRanking.TopIsBest` | crates/oxyn-catalog/src/search.rs:236-237 | everything kept outranks everything left, and as much as allowed is kept |
| `SearchRanking.RankingIsUnique` | crates/oxyn-catalog/src/search.rs:231-235 | candidates have one ranking |
| `SearchRanking.ResultIgnoresIterationOrder` | crates/oxyn-catalog/src/search.rs:207-209 | the result does not depend on the order the cache is walked in |
| `SearchAnswers.LevelIsWorth` | crates/oxyn-catalog/src/search.rs:290-372 | the best level of a term is what its best answer is worth: which of name, field or comment answers, and how |
| `SearchAnswers.WorthTable` | crates/oxyn-catalog/src/search.rs:47-61 | what each answer is worth |
| `SearchAnswers.OriginIsTheAnswer` | crates/oxyn-catalog/src/search.rs:290-356 | a hit is said to match what answers best |
| `SearchAnswers.AnsweringBothRanksAboveExactly` | crates/oxyn-catalog/src/search.rs:202-205 | a relation answering two terms ranks above one answering a single term perfectly if and only if its answers outweigh a perfect one, or balance it and its path comes first |
| `SearchAnswers.AnsweringBothComesFirstExactly` | crates/oxyn-catalog/src/search.rs:213-238 | the same of the order in which a search returns the two |
| `SearchAnswers.OwnNameAnsweringBothWins` | crates/oxyn-catalog/src/search.rs:202-205 | a relation whose own name answers both terms ranks above every one that leaves a term unanswered |
| `SearchAnswers.AnsweringBothCanComeSecond` | crates/oxyn-catalog/src/search.rs:202-205 | a search over two relations that returns the one answering both terms second |
| `Policy.DefaultPolicy.Authorize` | crates/oxyn-core/src/policy.rs:334-510 | the ordered refusals and approvals give the specified decision |
| `Policy.AgentsAreHeldTighter` | crates/oxyn-core/src/policy.rs:116-128 | an agent's decision is at least as restrictive as a human's |
| `Policy.StricterNeverLoosens` | crates/oxyn-core/src/policy.rs:301-303 | the decision is monotone in the announced environment, the marking and the read-only mark |
| `Policy.RetainedEnvironmentChangesNothing` | crates/oxyn-core/src/policy.rs:293-303 | announcing the retained environment changes no decision |
| `Policy.AllowedExactly` | crates/oxyn-core/src/policy.rs:15-27 | exactly which commands run without formality, for agents and humans |
| `Policy.DeniedExactly` | crates/oxyn-core/src/policy.rs:334-466 | denied if and only if it is an agent's that agents never send, or it mutates an unknown or read-only connection it runs on, or production by an agent |
| `Policy.DecisionsSayWhy` | crates/oxyn-core/src/policy.rs:334-510 | every refusal and approval names what holds, the statement's risk before anything else |
| `Policy.PreviewsShow` | crates/oxyn-core/src/policy.rs:311-330 | a preview carries the statement and the connection's name |
| `Policy.RetainedIsTheStricter` | crates/oxyn-core/src/policy.rs:301-303 | the retained environment is the stricter of the announced and the marked one |
| `Policy.GateGoesByTheTable` | crates/oxyn-core/src/command.rs:596-765 | command by command: where it runs, whose connection it is about, whether it is the human's, and whether it mutates |
| `Policy.ProductionIsNamed` | crates/oxyn-core/src/policy.rs:35-38 | on production no mutating command is let through, and an approval names the known connection |
| `Policy.DecisionDependsOnItsConnection` | crates/oxyn-core/src/policy.rs:251-285 | over any run of the registry, the decision depends on the last step about the target connection only |
| `Policy.ForgettingHoldsDatabaseCommands` | crates/oxyn-core/src/policy.rs:40-46 | forgetting a connection never loosens a command that runs against it |
| `Policy.ForgettingLoosensExactly` | crates/oxyn-core/src/policy.rs:452-466 | what forgetting loosens: exactly the mutating workspace commands its production marking held |

## Left out

- Buffer.ResultBuffer.PressureRefuses: assumes the limits are below the largest machine number; at it, saturating sums could still let a batch in.
- Buffer.ResultBuffer.ResidentWithinBudget: assumes the same, and that a trimmed batch reports no more bytes than the whole one.
- Buffer.ResultBuffer.Push: totals of rows offered are assumed below the machine's largest number; the second look at `complete` while publishing is in `BufferProducers` only, where another thread can have completed.
- SpillQuotas.QuotaHoldsExactly: one producer; that several producers may exceed a limit checked at planning is shown for the other two limits.
- Buffer.ResultBuffer.BatchAt: the schema re-check after reading back, and a spilled slot without a file, are not modelled; neither can happen when the file keeps what was appended.
- Cache.CatalogCache.SetNamespaces: names equal to the empty string, which is the key of a missing level, are excluded, as the model types of the crate exclude them.
- CatalogLaws.StoreStaysBounded: covers definitions that `validate` accepts; for others `CatalogDefinitions.PublishedFits` says exactly when the byte limit is exceeded.
- Literals.LiteralReadsBack: for MySQL with backslash escapes on; `Literals.MySqlEndsAtTheSameQuote` covers them off. Octal, hexadecimal and Unicode escapes of the dialects are not read, since none is written.
- Paths.QualifiedReadsBack: assumes the path has at least one present level and is not followed by a dot, which would prolong it.
- Insertion.InsertionReadsBack: bare words are read as ASCII letters, digits and underscores; other characters some dialects take in them are not.
- Words.CamelCaseIsCut: over letters that are of exactly one case; letters without case are covered by `Words.NameWords` only.
- Insertion.LooksUpReserved: the reserved-word lists are any strictly ascending lists; their contents are not modelled. Lower-casing is ASCII, which is all a plain word holds.
- ContextFields.CountNested: counters are unbounded; the saturation of machine counters is not modelled.
- ContextBudget.Build: the renderings, the selection, the resolved mentions and the key patterns are inputs; the announcing lines above the fenced body are not part of the model, being outside the budget.
- AgentTools.TranslationNeverAborts: the decoding of JSON arguments, the classifier of statements and the choice of white space are arbitrary functions; the registry is the built-in one.
- AgentLoop.Conversation.Run: one conversation at a time; identities are minted by the conversation's own counter, where the process shares one. The generation budget is an arbitrary verdict per event; reasoning and usage events are carried without their details.
- AgentLoop.Conversation.Converse: assumes that a token once cancelled stays cancelled.
- AgentLoop.Conversation.OneTurn: what the model's request carries besides the history (tools, effort) is not modelled.
- SearchScores.Rate: scores are exact fractions instead of floating-point numbers; lower-casing, trimming and the splitting of the query into terms happen before.
- SearchRanking.Search: the standard library's stable sort is modelled as insertion; candidates have distinct paths, which the cache guarantees.
- Words.NameWords: which characters are letters, digits, upper or lower case is a parameter.
- Policy.DefaultPolicy.Authorize: reasons are named instead of worded; the approval's estimate of rows, always absent, is not modelled.
- CancelProtocol.NoWaiterIsStuck: a waiter whose future is dropped before it returns is not modelled. Real memory ordering and the inside of the notifier are not modelled; a notification is one step that wakes every registered waiter.
- Untrusted.FenceOpensAndClosesOnce: the preamble, and the drawing of the nonce, are not modelled.
- Serialisation, display wording, the front end, providers, networking, keychains and the spill file's encoding are not modelled.
- Preview, statistics, durations, values and the shape validators are flat checks that would only add easy members.
- CatalogStaleness.StaleScopesAreTheRoots: the resolution path has a freshness of its own that `stale_at` never returns; it is not among the places.
- The read accessors and counters of the cache (`relation_count`, `unlisted_count`) are not modelled.
