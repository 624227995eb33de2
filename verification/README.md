# IronRoot, verified model

IronRoot is a PKI control plane: it enrolls machines with bootstrap tokens, issues, renews
and revokes certificates, keeps a hash-chained audit ledger, applies RBAC manifests to its
CA tables, and shows all of it through a status API, a terminal dashboard and reports. This
project models those parts and proves what they promise. `dafny verify dfyconfig.toml`
checks everything.

- `AuditLedger`, `AuditStore`, `AuditInterleaving`, `Clock`: the ledger's writer, its lister
  and its checker. SHA-256 is any function to 64 hex digits. Since such a function has
  collisions, no theorem assumes it has none; each says "or two rows of these very ledgers
  have different inputs and equal digests". Appends are then split into their three steps
  (clock read, SELECT, INSERT) and interleaved freely.
- `Tables`, `Handlers`, `LifecycleRuns`, `LifecycleRequests`: tokens, enrollments and
  certificates under their constraints; the handlers as methods of a class over a mutable
  store; and every interleaving of their single statements, with a proof that a request
  left alone does there what its handler does.
- `TopLoop`, `TopLoopDisplay`: the dashboard's update function and the runtime around it,
  pending commands as a multiset delivered in any order; and what is on display after any
  events, told from the events.
- `Rbac`, `RbacApply`, `RbacTheorems`, `RbacLoad`: manifests, the two passes of upserts as
  loops over a mutable store, the plan they execute, and what follows from it. `RbacGrants`,
  `RbacStored` and `RbacFailures` tell what a run stores, counts and fails for from the
  manifests alone.
- `Names`, `Grouping`, `CertificateStatus`, `Hierarchy`: comma lists and the status
  projections, each loop against a plain definition, and the projections against each other.
- `MarkdownReport`: writing a report table and reading it back, and what breaks it.
- `DevInit`: the workspace initialiser's dry run against its real run.
- `Base`: optional values and the text functions of the Go library that the rest uses.

Some things the code does differ from what a reader may expect, and the model follows the
code:

- docs/architecture/zero-trust-airgap.md:76 says that deleting any row breaks the chain.
  Deleting the newest rows does not (`AuditStore.DeletionUnnoticedIffNewest`). A serial
  ledger of more than 500 rows never passes, because the window then starts inside the chain
  (`AuditStore.SerialLedgerPassesIffSmall`); cut back to 500 rows it passes again.
- Applying the same manifests twice can fail the second time
  (`RbacTheorems.IncoherentReapplyFails`); `RbacTheorems.SecondRunSucceedsIff` says exactly
  when it does.
- Revoking a certificate while it is being stored can leave it recorded as revoked but not
  marked (`LifecycleRuns.EarlyRevocationSplitsTables`).
  `LifecycleRuns.RevocationTablesCoincideIff` says exactly when the two tables agree; they do
  when every revocation aims at a stored certificate
  (`LifecycleRuns.RevokingStoredKeepsTablesEqual`).
- A carriage return in a finding breaks its row of the Markdown report
  (`MarkdownReport.ReturnBreaksRow`), and nothing else does
  (`MarkdownReport.RowIsOneGfmLineIff`).

Every induction is written out: no lemma relies on Dafny's automatic induction.

Times are nanoseconds since 1970. Every clock reading, new id, signing result and fetched
snapshot is a parameter, so the theorems hold for whatever they turn out to be.

## Model

| member | source | states |
|---|---|---|
| `AuditLedger.ServerActionsAreMarked` | internal/api/handlers.go:56 | Every action name the server records has a character that is not a hex digit among its first 64, which is what the ledger theorems ask of the first row |
| `AuditLedger.CalendarStampIsSound` | internal/db/repositories.go:258 | A 64-digit hex digest and the whole-second UTC timestamp text meet everything the ledger proofs assume of hashing |
| `Clock.FormatDeterminesSecond` | internal/db/repositories.go:258 | For years up to 9999 two times print the same 20 characters if and only if they lie in the same second |
| `Clock.TimestampReadsBack` | internal/db/repositories.go:258 | The printed digits, read as numbers, are a calendar date and time of day that name the printed second |
| `Clock.LeapYears` | internal/db/repositories.go:258 | The calendar of the printed dates: every fourth year is a leap year, but only every fourth century year |
| `AuditLedger.HashInputDeterminesPieces` | internal/db/repositories.go:250-258 | From an undelimited hash input and the length of the previous hash, the previous hash, the joined text, the trace id and the second are recovered |
| `AuditLedger.HashesNeverRepeat` | internal/securitycheck/checks.go:448-481 | In a valid chain no hash occurs twice, or two rows with equal digests and different inputs are at hand |
| `AuditLedger.ForkBreaksChain` | internal/securitycheck/checks.go:448-454 | Two rows with the same previous hash never sit in one valid chain, or rows that collide are at hand |
| `AuditLedger.AgreeBackFrom` | internal/db/repositories.go:248-259 | Equal hashes anywhere in two valid chains force equal positions and equal records all the way back, or a collision |
| `AuditLedger.TipDeterminesLedger` | internal/db/repositories.go:248-259 | Two valid chains with the same last hash agree row by row on joined text, trace id and second, or a collision; equal length need not be assumed when both first actions are marked |
| `AuditLedger.EditedRowIsCaught` | internal/securitycheck/checks.go:466-478 | Changing the recorded content of any row under its old hash breaks the chain, or a collision |
| `AuditLedger.SurvivorsChainIffPrefix` | internal/securitycheck/checks.go:448-481 | Any prefix of a valid chain is a valid chain, and any other choice of its rows is not, or a collision |
| `AuditStore.AscendingIsChronological` | internal/db/repositories.go:277 | With strictly increasing times, insertion order is the order the lister sorts by |
| `AuditStore.SQLStore.SelectLastHash` | internal/db/repositories.go:239-246 | The writer reads the hash of a row that no other row follows by time and then by id, and nothing from an empty table |
| `AuditStore.SQLStore.CreateAuditLog` | internal/db/repositories.go:232-266 | An accepted append leaves one more row, with id, action, actor, target, metadata, trace id and creation time as given, the newest hash as previous hash and the digest of the input they make; a duplicate id is refused and changes nothing |
| `AuditStore.SQLStore.Record` | internal/audit/audit.go:19-31 | The stored row has the event’s columns and the clock reading; the error of the append is dropped |
| `AuditStore.SQLStore.ListAuditLogs` | internal/db/repositories.go:268-299 | Newest rows first: all of them or as many as the limit, 100 for a limit below 1 or above 500, and nothing left out is newer than what is listed |
| `AuditStore.CheckLogs` | internal/securitycheck/checks.go:444-487 | The backward walk passes exactly when the listing, reversed, is a valid chain; a failure names the first broken link or digest |
| `AuditStore.CheckFetched` | internal/securitycheck/checks.go:416-442 | Which verdict each outcome of the fetch gets; pass only for a valid chain |
| `AuditStore.RunCheck` | internal/securitycheck/checks.go:416-488 | The check on a store passes exactly when the window of newest rows is a chain that starts from nothing |
| `AuditStore.HonestLedgerIsChain` | internal/db/repositories.go:239-262 | Serial appends with increasing times always leave a valid chain whose rows carry exactly the given entries, column by column |
| `AuditStore.SerialLedgerPassesIffSmall` | internal/securitycheck/checks.go:427-458 | Such a ledger passes the check if and only if it has at most 500 rows |
| `AuditStore.ChainPassesIffSmall` | internal/securitycheck/checks.go:427-458 | A valid chain in order of time passes the check if and only if it has at most 500 rows |
| `AuditStore.DeletionUnnoticedIffNewest` | internal/securitycheck/checks.go:427-481 | From an honest ledger of any length, what is left after deletions passes if only newest rows are gone and at most 500 are left, and otherwise fails, or a collision; so cutting a failing over-long ledger back makes it pass |
| `AuditStore.PassingTablesWithOneTipAgree` | internal/securitycheck/checks.go:448-481 | Two tables of at most 500 rows that pass and have the same newest hash hold the same records in order of time, or a collision |
| `AuditInterleaving.EveryRunKeepsInv` | internal/db/repositories.go:239-262 | Whatever the interleaving of clock read, select and insert, each row links to the newest of the rows its writer saw |
| `AuditInterleaving.RowsCarryEntries` | internal/db/repositories.go:232-262 | In every interleaving each stored row carries, column by column, an entry that some appender was given |
| `AuditInterleaving.AppenderStores` | internal/db/repositories.go:239-262 | In every interleaving an appender that takes its three steps stores exactly its own entry behind the rows that are there, linked to the newest of the rows it selected from, or nothing if its id is used by then |
| `AuditInterleaving.RowsStay` | internal/db/repositories.go:259-262 | Stored rows are never moved, changed or dropped |
| `AuditInterleaving.PassesIffSerialized` | internal/db/repositories.go:239-262 | A ledger of at most 500 rows from any interleaving passes if every writer saw all rows before its own and times rise in row order, and only then, or a collision |
| `AuditInterleaving.ForkedLedgerFails` | internal/securitycheck/checks.go:448-454 | Two rows on one previous hash fail the check, or a collision |
| `AuditInterleaving.NoOverlapPassesIffSmall` | internal/db/repositories.go:239-262 | With appends whose three steps never overlap, for any number of writers, the ledger passes if and only if it has at most 500 rows |
| `Tables.ApiTokenStatus` | internal/api/status.go:283-292 | The status the API computes by overwriting a default is the one the admin CLI computes by early returns |
| `Handlers.SQLStore.CreateBootstrapToken` | internal/db/repositories.go:14-22 | Inserts the token with its columns, or refuses a used id or hash; other tokens stay |
| `Handlers.SQLStore.GetBootstrapTokenByHash` | internal/db/repositories.go:24-38 | Finds the token with this hash, or none |
| `Handlers.SQLStore.RevokeBootstrapToken` | internal/db/repositories.go:104-116 | Afterwards the token’s revocation time is the last whole second, its other columns and all other tokens are as before; an unknown id is an error and changes nothing |
| `Handlers.SQLStore.CreateEnrollment` | internal/db/repositories.go:118-126 | Inserts an enrollment under its foreign key |
| `Handlers.SQLStore.UpsertCAConfig` | internal/db/repositories.go:301-311 | Replaces everything but the creation time |
| `Handlers.SQLStore.StoreIssuedCertificate` | internal/db/repositories.go:168-176 | Inserts a certificate under its key and foreign key |
| `Handlers.SQLStore.RevokeCertificate` | internal/db/repositories.go:218-230 | Both tables get one time; an unknown serial is refused and changes nothing |
| `Handlers.Api.ValidateAndEnroll` | internal/enrollment/enrollment.go:31-56 | Accepts exactly when host and machine are not blank, the token status at the check is active or used, the host matches without regard to case and the new id is free; then only that enrollment is added |
| `Handlers.Api.EnsureCAConfig` | internal/api/handlers.go:200-212 | The CA row is there afterwards and others stay |
| `Handlers.Api.StoreSigned` | internal/api/handlers.go:97-110 | The CA row is refreshed even if the serial is then refused; the counter moves only with a stored row |
| `Handlers.Api.RequestCertificate` | internal/api/handlers.go:76-113 | Succeeds exactly for a stored enrollment, a signed request and a free serial; the subject is the enrollment’s host; counter and table move together |
| `Handlers.Api.RenewCertificate` | internal/api/handlers.go:115-148 | Refused only outside the window of a known old certificate; no enrollment is looked up; counter and table move together |
| `Handlers.Api.RevokeCertificate` | internal/api/handlers.go:150-176 | A known serial is marked in both tables with one time and the counter drops, every time; otherwise nothing changes |
| `LifecycleRequests.UninterruptedEnrollment` | internal/enrollment/enrollment.go:33-49 | The two statements of an enrollment, run without interruption in the interleaved model, do what the handler does |
| `LifecycleRequests.UninterruptedRequest` | internal/api/handlers.go:83-110 | So do the four acts of a certificate request, refused or not; the creation time is read after the CA row is refreshed |
| `LifecycleRequests.UninterruptedRenewal` | internal/api/handlers.go:122-145 | So do those of a renewal, refused outside the window of a known old certificate and otherwise without any enrollment lookup |
| `LifecycleRequests.UninterruptedRevocation` | internal/api/handlers.go:160-173 | So do the three acts of a revocation |
| `LifecycleRuns.EveryHistoryKeepsInv` | internal/api/handlers.go:39-176 | Every interleaving of the statements of any number of requests keeps keys, unique hashes and foreign keys, and the invariants behind the rows below |
| `LifecycleRuns.EnrollmentsStandOnLiveTokens` | internal/enrollment/enrollment.go:38-49 | In every reachable state each enrollment names a stored token, and an act of the history presented that token’s hash for this enrollment, not later than it was created, and found the token active or used and for its host |
| `LifecycleRuns.CertificatesNameTheirSources` | internal/api/handlers.go:87-107 | In every reachable state each certificate names a stored CA row, and a requested one also names a stored enrollment whose host is its subject |
| `LifecycleRuns.MarkedIff` | internal/db/repositories.go:221-225 | A certificate is marked as revoked exactly when some revocation’s UPDATE found it stored |
| `LifecycleRuns.RevocationTablesCoincideIff` | internal/db/repositories.go:218-230 | However revocations interleave, revoked rows name issued rows and marked rows are recorded or half done; with none half done the two tables name the same serials if and only if each recorded serial had a revocation that found it stored |
| `LifecycleRuns.RevokingStoredKeepsTablesEqual` | internal/db/repositories.go:218-230 | When every revocation aims at a stored certificate the tables are equal whenever none is half done, and between requests the counter equals the unrevoked rows exactly when no serial was revoked twice |
| `LifecycleRuns.TablesAgreeUnlessOvertaken` | internal/db/repositories.go:168-230 | The same as long as no certificate is stored while a revocation of its serial is half done |
| `LifecycleRuns.RevocationBegan` | internal/api/handlers.go:167 | Every half done revocation has an UPDATE of its own in the history, which gave it its time |
| `LifecycleRuns.RevocationTimesAgreeIff` | internal/db/repositories.go:218-230 | The tables show the same time for a serial if and only if the last UPDATE that found it and the UPDATE of the request that recorded it last have the same time, as when they are one |
| `LifecycleRuns.SerialHistoriesAgree` | internal/api/handlers.go:150-176 | So between serial requests both tables agree on serials and times, and the counter equals the unrevoked certificates exactly when no serial was revoked twice |
| `LifecycleRuns.EveryEventListIsAHistory` | internal/api/handlers.go:39-176 | Every list of events is a history, so the theorems about histories leave none out |
| `LifecycleRuns.EarlyRevocationSplitsTables` | internal/db/repositories.go:221-226 | A history in which a revocation overtakes the storing of its certificate leaves it recorded as revoked and not marked |
| `LifecycleRuns.CounterBoundsActiveCertificates` | internal/api/handlers.go:101-110 | Whenever no request is in flight, after any interleaving, the counter is stored certificates minus successful revocations; it never exceeds the unrevoked rows and equals them exactly when no serial was revoked twice and each revoked one had a revocation that found it stored |
| `LifecycleRuns.TokenStatusMovesForward` | internal/cli/admin/admin.go:635-646 | From any state on, a token never moves back in active, used, expired, revoked |
| `LifecycleRuns.RevokedTokenStaysRevoked` | internal/db/repositories.go:104-116 | A revocation that finds its token gives it that whole second and changes nothing else; its status is revoked in every later world, whatever interleaves |
| `LifecycleRuns.RevokedTokenAdmitsNone` | internal/enrollment/enrollment.go:38-45 | No later check admits a request with a revoked token |
| `TopLoop.EveryRunKeepsInv` | internal/irtop/model.go:81-142 | Every run, replies and ticks delivered in any order, keeps the loop’s invariant |
| `TopLoop.SnapshotComesFromActiveProfile` | internal/irtop/model.go:125-131 | The snapshot on display is empty or was fetched with the active profile’s configuration, across all switches |
| `TopLoop.LoopStaysAliveAndTruthful` | internal/irtop/model.go:81-142 | Until it quits exactly one tick is outstanding; each state says what is held; indices stay in range |
| `TopLoop.StaleRepliesDoNotMatter` | internal/irtop/model.go:125-141 | Replies for other profiles can be struck from any run: the rest is a run that ends in the same model |
| `TopLoop.SwitchEqualsFreshStartIff` | internal/irtop/model.go:284-303 | A switch leaves the model a fresh start on that profile would have, except the refresh interval, which agrees exactly when the profile configures a positive one |
| `TopLoop.SwitchingForward` | internal/irtop/model.go:106-109 | n presses of the next key go n profiles on, cyclically |
| `TopLoop.SwitchingBack` | internal/irtop/model.go:102-105 | n presses of the previous key go n profiles back, cyclically |
| `TopLoop.SelectorCancels` | internal/irtop/model.go:263-276 | Opening the selector, moving and leaving it changes nothing but the cursor |
| `TopLoopDisplay.ReplyIsShown` | internal/irtop/model.go:125-141 | A reply for the active profile: success is shown, clears the error and gives empty or loaded by its content; failure stores its error, keeps a held snapshot and gives failed exactly when none is held |
| `TopLoopDisplay.OthersShowNothing` | internal/irtop/model.go:81-142 | No other event touches snapshot, error or state, except a switch, which leaves nothing on display |
| `TopLoopDisplay.LastReplyIsOnDisplay` | internal/irtop/model.go:81-142 | After the last successful reply for the active profile its snapshot stays on display, however many other events follow without a switch |
| `TopLoopDisplay.DisplayIsDetermined` | internal/irtop/model.go:81-142 | At any point of any run the display is the snapshot of the last such reply since the start or the last switch, or nothing if there was none |
| `TopLoopDisplay.LastErrorIsKept` | internal/irtop/model.go:125-141 | The error on display is that of the last reply for the active profile since the last switch |
| `TopLoopDisplay.FailedReplyFailsIff` | internal/irtop/model.go:129-139 | In any run a failed reply leads to the failed state exactly when no snapshot is held |
| `TopLoopDisplay.RefreshesAreAsked` | internal/irtop/model.go:116-124 | Each tick and the refresh key ask for one refresh with the active profile’s client, a tick also for the next tick |
| `TopLoopDisplay.StartAsks` | internal/irtop/model.go:54-83 | A run starts on the requested profile, or the first, with one refresh and one tick under way |
| `TopLoopDisplay.ViewKeys` | internal/irtop/model.go:110-122 | Each view’s key leads to that view and escape goes where the help key goes; in the selector a view’s key does nothing and escape only closes it |
| `TopLoopDisplay.QuitKeyQuits` | internal/irtop/model.go:90-96 | The quit key ends the run from every screen and changes nothing else |
| `TopLoopDisplay.HelpTwiceIsOverview` | internal/irtop/model.go:110-115 | The help key leads to the help view and, pressed again, always to the overview |
| `TopLoopDisplay.SelectorPicks` | internal/irtop/model.go:263-303 | Opening the selector, going n down or up and pressing enter activates the profile n further on or back, cyclically |
| `Rbac.UpsertKeepsIntegrity` | internal/db/migrations.go:6-59 | An accepted upsert keeps primary keys, status checks, UNIQUE fingerprints and foreign keys |
| `Rbac.IntegrityIff` | internal/db/migrations.go:6-59 | What the constraints say: rows sit under their own table and id, statuses are the listed ones, no two authorities of a kind share a fingerprint, and references are there |
| `Rbac.CAStore.Upsert` | internal/db/repositories.go:337-347 | Accepts a row exactly when its status, fingerprint and reference fit; then its columns are stored, an existing creation time and all other rows are kept |
| `Rbac.FirstNonEmptyIsFirst` | internal/rbac/loader.go:392-399 | The first value that is not blank, trimmed; empty only if all are blank |
| `RbacApply.Loader.Define` | internal/rbac/loader.go:223-248 | One turn of the first pass does the actions planned for its manifest and indexes roles |
| `RbacApply.Loader.GrantRule` | internal/rbac/loader.go:333-345 | One rule is granted to every subject, up to the first refusal |
| `RbacApply.Loader.ApplyRoleBinding` | internal/rbac/loader.go:327-348 | Grants every rule of the role that has a target to every subject, up to the first refusal |
| `RbacApply.Loader.Use` | internal/rbac/loader.go:249-269 | One turn of the second pass does the actions planned for its manifest |
| `RbacApply.Loader.Apply` | internal/rbac/loader.go:221-271 | Both loops leave exactly the store, counters and error of executing a plan that can be read off the manifests |
| `RbacApply.ExecuteAppend` | internal/rbac/loader.go:221-271 | Plans compose: executing one after the other is executing their concatenation |
| `RbacTheorems.MixingOrderIsIrrelevant` | internal/rbac/loader.go:221-271 | Two lists with the same definitions in order and the same uses in order have the same outcome |
| `RbacTheorems.ApplyEqualsPartitioned` | internal/rbac/loader.go:221-271 | Applying a list equals applying its definitions and then its bindings and policies, in store, counters and error |
| `RbacTheorems.FailureKeepsPrefix` | internal/rbac/loader.go:221-271 | A failed run has done exactly the actions before the refused one, and keeps them |
| `RbacTheorems.ExecuteKeepsIntegrity` | internal/rbac/loader.go:221-271 | Whatever happens, the constraints hold afterwards |
| `RbacTheorems.SuccessWritesPlan` | internal/rbac/loader.go:221-383 | A successful run leaves each planned row as last written, keeps creation times and all other rows, and counts everything |
| `RbacGrants.GrantIsStored` | internal/rbac/loader.go:327-348 | After a successful run each binding, rule of its role and subject has a CARole row on the authority that the rule names, else the role, else the binding, with the role’s name, the subject and the joined verbs of the last grant of its id |
| `RbacGrants.WrittenRolesAreGrants` | internal/rbac/loader.go:327-348 | Every CARole row that a successful run wrote is such a grant |
| `RbacStored.RootIsStored` | internal/rbac/loader.go:273-291 | The last RootCA manifest of a name is stored with its columns, defaults for the blank ones, and ten years of validity |
| `RbacStored.IntermediateIsStored` | internal/rbac/loader.go:293-325 | So is the last IntermediateCA manifest, with its lifetime cut to whole seconds, renewable unless it says no, valid for one year |
| `RbacStored.PolicyIsStored` | internal/rbac/loader.go:350-383 | So is the last TokenPolicy manifest, renewable only if it says so, with the expiry that it fixes |
| `RbacStored.WrittenAuthoritiesAreDefined` | internal/rbac/loader.go:221-325 | Every authority that a successful run wrote has a manifest of its kind and name |
| `RbacStored.TimesAreReadings` | internal/rbac/loader.go:273-383 | Every creation time, start of validity and unfixed expiry that a successful run stores comes from a clock reading of that run |
| `RbacStored.CountersCountManifests` | internal/rbac/loader.go:221-271 | After a successful run each counter is the number of manifests of its kinds |
| `RbacFailures.FailureHasReason` | internal/rbac/loader.go:249-383 | A run that fails for anything but a refused write names a manifest whose duration or expiry does not parse or whose role is defined nowhere in the list |
| `RbacFailures.SucceedsIff` | internal/rbac/loader.go:221-383 | A run goes through exactly when there is no such manifest and no write is refused |
| `RbacTheorems.SuccessfulPutsAreSound` | internal/rbac/loader.go:221-383 | Every row a successful run wrote has a valid status and refers to a row that is there at the end |
| `RbacTheorems.SecondRunSucceedsIff` | internal/rbac/loader.go:221-383 | Applying again goes through if and only if no authority’s fingerprint ends up with another authority first written later; then only clock-derived times change |
| `RbacTheorems.ReapplyIsStable` | internal/rbac/loader.go:221-383 | Manifests that agree on each authority (as when names are distinct) apply again without error, with the same counters, and change only validity and expiry |
| `RbacTheorems.IncoherentReapplyFails` | internal/rbac/loader.go:273-291 | A list of valid RootCA manifests that applies once and fails the second time |
| `RbacLoad.ValidateManifest` | internal/rbac/loader.go:167-219 | A manifest is accepted exactly when it is named and has what its kind asks for, and otherwise the reported fault is there; users, groups and service accounts need no more than their name |
| `RbacLoad.ReadFile` | internal/rbac/loader.go:142-162 | Documents up to the first bad one, empty ones passed over |
| `RbacLoad.ReadManifests` | internal/rbac/loader.go:135-165 | All manifests in order if every file and document is good; otherwise the first fault and where it is |
| `RbacLoad.LoadAndApply` | internal/rbac/loader.go:85-106 | A disabled loader, a wrong mode, a bad pattern or one bad document anywhere leaves the store untouched; otherwise the plan of all manifests is executed |
| `Base.EqualFoldIff` | internal/enrollment/enrollment.go:40 | Two texts match without regard to case exactly when they have one length and at each place the same character or the same ASCII letter in either case |
| `Base.TrimSpaceDropsBlankEnds` | internal/api/status.go:593 | Trimming takes away nothing but white space from the two ends |
| `Base.FieldsJoinBack` | internal/api/status.go:590 | Splitting at a separator loses nothing: the pieces join back and none holds a separator |
| `Base.FieldsOfJoin` | internal/api/status.go:590 | Pieces without separators, joined and split, come back |
| `Names.SplitNames` | internal/api/status.go:586-598 | The loop returns the trimmed pieces that are not blank |
| `Names.SplitUndoesJoinIff` | internal/api/status.go:586-598 | Joining and splitting returns a list exactly when its names are trimmed, not empty and without commas |
| `Names.SplitJoinSplit` | internal/api/status.go:586-598 | Splitting, joining and splitting again is splitting once, for every string |
| `Grouping.GroupBy` | internal/api/status.go:449-459 | A map of slices filled in one loop holds, under every key, the elements with that key in order |
| `Grouping.GroupingConserves` | internal/api/status.go:450-488 | Groups under distinct keys hold nothing twice and lose only what has another key |
| `Grouping.GroupSizesAddUpIff` | internal/api/status.go:450-488 | Group sizes add up to the number of elements exactly when every key is covered |
| `CertificateStatus.ItemShowsRequestedNamesIff` | internal/api/status.go:571-584 | A certificate’s status lists the requested names exactly when each is trimmed, not empty and without commas |
| `CertificateStatus.SummarizeCertificates` | internal/api/status.go:506-532 | Each counter of the loop is the number of certificates with that property, today starting at the midnight at or before now |
| `CertificateStatus.CertificateCountsByCA` | internal/api/status.go:492-504 | The two maps count, per authority, current certificates and revoked or expired ones |
| `CertificateStatus.StandingsPartition` | internal/api/status.go:492-584 | At one instant active, revoked and expired certificates together are all certificates, once each |
| `CertificateStatus.CountersAddUp` | internal/api/status.go:506-532 | So the three counters add up to the total |
| `CertificateStatus.SummaryCountsItems` | internal/api/status.go:506-584 | Each summary counter equals the number of items with that status |
| `CertificateStatus.ExpiringSoonIsDueOrNow` | internal/api/status.go:527-581 | Expiring soon counts the items called due and, unless the window is negative, the unrevoked ones that expire at this instant |
| `CertificateStatus.CountsAddUpIff` | internal/api/status.go:492-532 | For each standing, per-authority counts add up to the number of certificates with it exactly when every such certificate’s authority is among those summed |
| `CertificateStatus.TalliesAddUpIff` | internal/api/status.go:492-532 | The active map sums to the summary’s active certificates exactly when it covers their issuers, and the revoked map to its revoked and expired ones together exactly when it covers theirs |
| `Hierarchy.IndexRoots` | internal/api/status.go:433-448 | One bare item per root and, under each id, the position of its last root |
| `Hierarchy.BuildCAHierarchy` | internal/api/status.go:432-490 | Each root and each intermediate it lists show their row column by column; an intermediate counts its valid and its revoked or expired certificates and shows exactly the roles and policies that name it; all this equals the nested-loop join; the summary counts rows and issuers by status |
| `Hierarchy.DistinctRootsListEverything` | internal/api/status.go:432-490 | With distinct root ids each root lists exactly its own intermediates in order, none twice, and all are listed exactly when every reference resolves |
| `Hierarchy.StoredHierarchyIsComplete` | internal/db/migrations.go:17-36 | For tables that keep their constraints the hierarchy lists every intermediate |
| `Hierarchy.ListedCertificatesAddUpIff` | internal/api/status.go:432-532 | For such tables the listed numbers of certificates sum to the summary’s, valid ones and revoked or expired ones, exactly when the listed intermediates issued all of them |
| `Hierarchy.LegacyCAHierarchy` | internal/api/status.go:391-430 | Old configurations with distinct ids give, column by column, a root each with its one intermediate and that authority’s certificate counts |
| `MarkdownReport.RenderMarkdown` | internal/securitycheck/render.go:62-82 | The output’s lines are the fixed preamble with the four counts behind their labels, one row per check in order that reads back as that check’s texts, and nothing else |
| `MarkdownReport.RowIsOneLine` | internal/securitycheck/render.go:71-78 | No check’s row contains a newline |
| `MarkdownReport.RowIsOneGfmLineIff` | internal/securitycheck/render.go:71-88 | A check’s row is one line for readers of GitHub Flavored Markdown if and only if none of its texts contains a carriage return |
| `MarkdownReport.ReturnBreaksRow` | internal/securitycheck/render.go:84-88 | A check whose message breaks its row |
| `MarkdownReport.UnescapeUndoesEscape` | internal/securitycheck/render.go:84-88 | Taking the backslashes away again gives the text with newlines turned to spaces, for every text |
| `MarkdownReport.CellIsSealed` | internal/securitycheck/render.go:71-78 | No pipe inside a cell ends it and the pipe after it does, whatever the text ends in |
| `MarkdownReport.RowReadsBack` | internal/securitycheck/render.go:71-78 | Every row has exactly six cells, and they read back as the check’s six texts |
| `MarkdownReport.OneRowPerCheck` | internal/securitycheck/render.go:70-79 | n checks give n rows in order |
| `MarkdownReport.ReportDeterminesChecks` | internal/securitycheck/render.go:70-88 | The rows determine the checks up to newlines |
| `DevInit.Initialiser.EnsureDir` | internal/cli/dev/devinit.go:120-138 | What is found decides success, report line and whether directories are made; nothing that is there changes |
| `DevInit.Initialiser.WriteGeneratedFile` | internal/cli/dev/devinit.go:140-154 | An existing path is skipped unless forced; a forced write fails on a directory and changes nothing else |
| `DevInit.Initialiser.Run` | internal/cli/dev/devinit.go:64-92 | For any lists with parents first, outcome, report and resulting tree are functions of the tree at the start |
| `DevInit.Initialiser.RunDevInit` | internal/cli/dev/devinit.go:31-96 | A dry run changes nothing and reports the four lists of a real run; the real run fails beside it only when forced onto a directory. A successful run leaves the nine directories and each of the four files with its own text; whatever happens, nothing else changes and without force nothing at all that was there |
| `DevInit.Initialiser.RunTwice` | internal/cli/dev/devinit.go:31-96 | After a successful run, forced or not, an unforced one succeeds, creates and writes nothing, and reports every directory as existing and every file as skipped |
| `DevInit.EarlierDirsDoNotMatter` | internal/cli/dev/devinit.go:53-78 | Directories made before do not change what is found later, because parents come first |
| `DevInit.WorkspaceDirsParentsFirst` | internal/cli/dev/devinit.go:53-63 | The program’s own list has parents first |
| `DevInit.WorkspaceFilesSeparate` | internal/cli/dev/devinit.go:80-92 | Its files lie in directories it makes and in nobody’s way |
| `DevInit.SecondRunWritesNothing` | internal/cli/dev/devinit.go:64-92 | The same of any lists with parents first, as a statement about the tree that a run leaves |

## Left out

- X.509, signing, key files and encryption: SignCSR is an abstract operation that returns a serial, which may be in use, or fails.
- SQL, the driver, connection faults and NULL columns of old audit rows: each statement is one atomic step on maps or sequences with the constraints of internal/db/migrations.go, foreign keys on.
- HTTP, JSON and YAML decoding, telemetry export and command lines; of the metrics only the active-certificate counter is kept.
- Text that is not valid UTF-8, and letter case outside ASCII. Times before 1970 are not modelled, and printed timestamps are limited to years of four digits.
- AuditLedger.TipDeterminesLedger: action, actor, target and metadata are hashed without delimiters, so only their concatenation is determined.
- AuditStore.SQLStore.ListAuditLogs: rows of equal time come in insertion order, an order the SQL leaves open; the theorems assume times that differ.
- AuditStore.SQLStore.Record: metadata arrives as JSON text and the trace id as its 32 characters.
- AuditInterleaving.PassesIffSerialized: assumes that clock readings of different writers differ.
- LifecycleRuns.EveryHistoryKeepsInv: a clock reading is one act with the statement it stands next to; audit rows are not part of these histories.
- LifecycleRuns.CounterBoundsActiveCertificates: one process from an empty store, as the counter is not persistent.
- Tables.ApiTokenStatus: the usage count is given; statusTokens ignores an error of the count query and then shows the token as unused.
- TopLoop.LoopStaysAliveAndTruthful: window sizes, rendering, the key tables of the views and parsing of the default view are not modelled; a snapshot is reduced to the fields that decide whether it is empty. Freshness is not claimed: an older reply for the same profile may arrive last.
- RbacLoad.LoadAndApply: the list of matching files is given, in order; durations and timestamps come parsed or marked malformed.
- RbacApply.Loader.Define: labels, annotations, rule resources and role-reference kinds are read by nothing and left out.
- CertificateStatus.SummarizeCertificates: days remaining are exact, without the rounding of floating-point hours.
- Hierarchy.BuildCAHierarchy: maximal lifetimes stay numbers of seconds; the decision between the hierarchy and the legacy projection is a test for empty tables.
- MarkdownReport.RenderMarkdown: the four summary counts come as decimal text.
- DevInit.Initialiser.RunDevInit: a file system without links and permissions; cancellation and the texts of the generated files are not modelled.
- summarizeSecurity, summarizeEnrollments, audit severities and the other security checks: single branches over one row.
- Host, container and Kubernetes probes, token masking, table rendering and view names: easy members only.
