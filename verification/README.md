# Verified models of the apid control plane

A Dafny project that models the parts of `cmd/apid` that hold state, race, count or compute, and
proves what they guarantee. Each module follows one component:

- `EnvQuota`: environment variables of an app, and the plan's cap on them, checked without a lock.
- `FailedLoginAudit`: the buffered pipeline that writes failed logins to the events table.
- `Histogram`: latency quantiles from cumulative buckets, over exact reals.
- `TarPaths`, `TarExtract`: the name checks on a deploy archive, and its extraction.
- `TenantPages`, `AuditEvents`, `AuditTrail`, `Rfc3339`: listings that page, over-read or merge, against
  the plain list they stand for.
- `AlertRules`: alert rules under partial update, and the audit events that should tell their story.
- `BuildPlanCache`, `GraceCache`: two caches, against the direct reads they replace.
- `DnsVerify`, `OAuthAccounts`: wildcard certificate names, and binding identity providers' subjects.
- `Options`, `Recency`, `Separated`: an option type, newest-first lists, strings split at a separator.

Code that interleaves (requests between store calls, emitters and the flusher, lock sections) is a
transition system: a total `Apply` of a step to a state, and lemmas over every sequence of steps. Beside
it stand the same operations as class methods run one at a time, proved against the same functions.
Code that loops keeps its loops. The store is an abstract map with the contract its call sites
rely on.

## Where the code and its documentation differ

The model follows the code. These promises it does not keep in general; the lemma named says when it does:

- `Close` of the auditor is documented to drain all rows in flight into the events table. If no write
  fails it does so exactly when nothing is buffered, or at most one batch is and the context is alive
  (`FailedLoginAudit.CloseWritesAllIff`); a row whose write fails is not tried again
  (`FailedLoginAudit.CloseLandsAllIff`). The daemon calls `Close` after cancelling the context
  (cmd/apid/main.go:1631-1660). Then a full buffer of 4096 rows can be left
  (`FailedLoginAudit.FullBufferAtClose`), and the rows of the last drain fail as well when the store
  honours the cancelled context each write inherits (`FailedLoginAudit.CancelledCloseWritesNothing`).
- The tenant cursor is cut to whole seconds, so rows can be skipped (`TenantPages.RowLost`);
  `TenantPages.CompleteIff` says when.
- The quantile is said to match PromQL's `histogram_quantile`. With leading empty buckets it can be lower
  than interpolation from the preceding bound (`Histogram.EmptyBucketLowers`);
  `Histogram.QuantileStandardIff` says when it is not.
- The audit event listing can be short (`AuditEvents.OwnEventsShort`), and with anonymous rows can show an
  older row in place of a newer one (`AuditEvents.HiddenByNewerRows`); `AuditEvents.OwnEventsRightIff` and
  `AuditEvents.AnswerRightIff` say when it is right.
- The alert rule events are to tell what was altered and to what. In the order they are emitted they
  replay to the rules, and their old sides undo their updates, exactly when requests run one at a time
  (`AlertRules.LogReplaysIff`, `AlertRules.OldSidesUndoIff`, and for a single write
  `AlertRules.OldSideUndoesIff`).
- The build plan cache is described as LRU. It evicts the entry stored first, which is the least recently
  used one exactly under `BuildPlanCache.VictimLeastRecentlyUsedIff`.
- The grace window cache promises that a rotation after an update sees the new value. It does exactly
  when no lookup holds a differing reading at the invalidation (`GraceCache.UpdateSeenIff`). Lookups that
  overlap can report no override wrongly (`GraceCache.ExactIff`).
- A provider's subject once bound is to be the account's for good. A store error on a lookup is taken for
  absence, and the subject may then get another account (`OAuthAccounts.BoundSubjectAnswered`,
  `OAuthAccounts.FailedLookupMisleads`).

And these are behaviours a reader may not expect:

- A histogram without observations answers its first finite bound, not zero
  (`Histogram.EmptyHistogramAnswersFirstBound`).
- A wildcard name also covers a domain that begins with a dot (`DnsVerify.EmptyLabelIff`,
  `DnsVerify.EmptyLabelCovered`).
- Creating an alert rule stores the trimmed name, updating it stores the name as sent
  (`AlertRules.NameTrimmedIff`).
- A link whose account is gone, says a comment, "stays orphaned or will be re-bound below"
  (cmd/apid/handlers_google.go:291-294). Of the two only the first happens (`OAuthAccounts.OrphanStays`,
  `OAuthAccounts.OrphanNotRebound`), and only with the in-memory store: the Postgres schema removes the
  links with the account (migrations/00038_oauth_links.sql).

In one place the call site and the two stores disagree and the model has to choose: for an empty subject
the events store is said to return the rows without a subject, the SQL compares with `= NULL` and returns
none (pkg/state/pgstore.go:9869-9881), and the in-memory store returns all rows
(pkg/state/memstore.go:7529-7552). `AuditEvents` follows the call site.

## Model

| member | source | states |
|---|---|---|
| `EnvQuota.OvershootBounded` | cmd/apid/handlers_env.go:260-469 | every interleaving of at most n PUTs and any DELETEs, from at or under the cap, keeps the rows of an app at or under cap + n - 1 (0 for a zero cap); n = 1 is the exact cap |
| `EnvQuota.OvershootReached` | cmd/apid/handlers_env.go:373-389 | the bound is tight: for every cap, n and list of distinct rows some run stores exactly that many |
| `EnvQuota.ExposedBounded` | cmd/apid/handlers_env.go:286-294 | the invariant behind it: stored rows together with the rows of PUTs sure to pass never exceed the peak |
| `EnvQuota.ExposedShrinks` | cmd/apid/handlers_env.go:260-451 | only a count below the cap can enlarge that set |
| `EnvQuota.CountWasSeen` | cmd/apid/handlers_env.go:373-389 | the count a PUT carries was the number of stored rows at an earlier point of the run |
| `EnvQuota.RefusalJustified` | cmd/apid/handlers_env.go:373-389 | a refused PUT had counted a full plan at some point and its row was absent when it looked |
| `EnvQuota.UndisturbedPut` | cmd/apid/handlers_env.go:260-358 | the steps of a PUT that nothing comes between have the effect and answer of the whole handler |
| `EnvQuota.UndisturbedDelete` | cmd/apid/handlers_env.go:411-451 | the one step of a DELETE has the effect and answer of the whole handler |
| `EnvQuota.SetEffect` | cmd/apid/handlers_env.go:260-358 | a whole PUT stores its row and only it, or refuses a new row at a full plan and changes nothing; within the cap it stays within the cap |
| `EnvQuota.EnvHandler.SetEnv` | cmd/apid/handlers_env.go:260-358 | one at a time, the handler has that effect and keeps the rows within the cap |
| `EnvQuota.EnvHandler.CheckEnvQuota` | cmd/apid/handlers_env.go:373-389 | admits exactly when the row exists or the plan is not full, and reports the count otherwise |
| `EnvQuota.EnvHandler.EnvExistsInScope` | cmd/apid/handlers_env.go:458-469 | scanning the scope's listing finds the row exactly when it is stored |
| `EnvQuota.EnvHandler.DeleteEnv` | cmd/apid/handlers_env.go:411-451 | removes the row and nothing else, or reports it missing |
| `FailedLoginAudit.RunConserves` | cmd/apid/audit.go:324-519 | in every run each accepted row is handed over, in hand or buffered, in order, within capacity, and counters agree |
| `FailedLoginAudit.AttemptsAccounted` | cmd/apid/audit.go:324-519 | attempts = dropped + appended + write failures + buffered + in hand + emitters between counter and send |
| `FailedLoginAudit.HandedInOrder` | cmd/apid/audit.go:391-519 | rows handed to the store are a prefix, in order, of the rows accepted |
| `FailedLoginAudit.NothingDroppedBelowCapacity` | cmd/apid/audit.go:324-364 | a run in which the buffer never fills drops nothing |
| `FailedLoginAudit.CloseLeavesAtMost` | cmd/apid/audit.go:282-294 | Close with n rows buffered leaves at most max(0, n - batch) of them not handed to the store, or at most n when the context was cancelled before it |
| `FailedLoginAudit.CloseLeavesAsMany` | cmd/apid/audit.go:282-294 | for every n within capacity, context alive or cancelled, writes succeeding or failing, some run of Close leaves exactly that many |
| `FailedLoginAudit.CloseHandsOverAllIff` | cmd/apid/audit.go:277-294 | Close is sure to hand every buffered row to the store exactly when nothing is buffered, or the context is alive and at most one batch is |
| `FailedLoginAudit.CloseWritesAllIff` | cmd/apid/audit.go:277-294 | on every schedule on which no write fails the events table holds every accepted row once Close returns, exactly under that condition |
| `FailedLoginAudit.CloseLandsAllIff` | cmd/apid/audit.go:449-519 | with writes that may fail, the rows in flight at Close are sure to come into the table exactly when there are none |
| `FailedLoginAudit.CancelledCloseWritesNothing` | cmd/apid/audit.go:490-495 | with a store that honours its context, a Close after the cancellation writes none of the rows in flight, on any schedule |
| `FailedLoginAudit.FullBufferAtClose` | cmd/apid/audit.go:85-100 | with the production sizes and no write failing, the table can miss 4096 accepted rows once Close returns on a cancelled context, 3096 on a live one, and never more |
| `FailedLoginAudit.BacklogEmptiesIn` | cmd/apid/audit.go:431-447 | an undisturbed backlog is empty after k drains exactly when k reaches the ceiling of rows over batch |
| `FailedLoginAudit.UndisturbedDrain` | cmd/apid/audit.go:391-519 | a tick, a close or a cancelled context, and the steps of one wake-up that nothing disturbs: the front of the buffer up to a batch is handed over and written or counted as failed, and the flusher waits again, or has returned unless it was a tick |
| `FailedLoginAudit.UndisturbedEmit` | cmd/apid/audit.go:324-364 | the two steps of an undisturbed attempt have the effect of the emit method |
| `FailedLoginAudit.Auditor.EmitFailedLogin` | cmd/apid/audit.go:324-364 | counts the attempt, then buffers the row or, when the buffer is full, counts a drop |
| `FailedLoginAudit.Auditor.DrainFlusher` | cmd/apid/audit.go:431-447 | takes up to one batch from the front, appending the rows whose write succeeds and counting the rest |
| `Histogram.QuantileMonotone` | cmd/apid/handlers_account_scoped.go:323-377 | for 0 < q1 <= q2 the quantile does not decrease |
| `Histogram.QuantileInRange` | cmd/apid/handlers_account_scoped.go:323-377 | every answer lies between 0 and the largest finite bound |
| `Histogram.ListingUnique` | cmd/apid/handlers_account_scoped.go:331-343 | one bucket map has one sorted listing, so iteration order cannot matter |
| `Histogram.QuantileScaleInvariant` | cmd/apid/handlers_account_scoped.go:349-376 | multiplying all counts by a positive factor changes no quantile |
| `Histogram.QuantileOnCurve` | cmd/apid/handlers_account_scoped.go:349-376 | for 0 < q * total <= last finite count the piecewise-linear cumulative curve at the answer is q * total |
| `Histogram.QuantileBeyondFinite` | cmd/apid/handlers_account_scoped.go:350-377 | for q * total beyond the last finite count the answer is the largest finite bound, or 0 when the finite buckets hold nothing |
| `Histogram.TotalIsLast` | cmd/apid/handlers_account_scoped.go:344-348 | the total of a well-formed histogram is its last cumulative count |
| `Histogram.QuantileStandardIff` | cmd/apid/handlers_account_scoped.go:358-376 | with the target q * total, the answer never exceeds interpolation from the preceding bound, and equals it exactly when the first bucket is non-empty or the target reaches the first non-empty one |
| `Histogram.EmptyBucketLowers` | cmd/apid/handlers_account_scoped.go:358-376 | a histogram with an empty first bucket whose median falls short of that rule |
| `Histogram.EmptyHistogramAnswersFirstBound` | cmd/apid/handlers_account_scoped.go:349-376 | without observations the answer is the first finite bound |
| `Histogram.SortByBound` | cmd/apid/handlers_account_scoped.go:343-343 | the sort gives the same entries in ascending bounds |
| `Histogram.ParseBuckets` | cmd/apid/handlers_account_scoped.go:331-339 | exactly the buckets whose bound parses are kept, each once, in whatever order |
| `Histogram.Walk` | cmd/apid/handlers_account_scoped.go:360-377 | the loop over the sorted entries computes the located value |
| `Histogram.SortedQuantile` | cmd/apid/handlers_account_scoped.go:344-377 | the loops for the total and the last finite bucket and the walk give the quantile of the sorted entries |
| `Histogram.HistogramQuantile` | cmd/apid/handlers_account_scoped.go:323-377 | the whole function answers the quantile of the map's sorted listing |
| `TarPaths.CleanIsClean` | cmd/apid/extract.go:105-144 | cleaning yields no empty or dot component, and `..` only in front of a relative path |
| `TarPaths.CleanIdempotent` | cmd/apid/extract.go:105-144 | cleaning a clean path changes nothing |
| `TarPaths.CleanRules` | cmd/apid/extract.go:105-144 | cleaning drops empty components and dots, and a `..` together with the ordinary component before it, or by itself at the top of a rooted path |
| `TarPaths.JoinDescends` | cmd/apid/extract.go:244-244 | a name without `..` components, joined, lands inside the directory at its kept components |
| `TarPaths.PathStaysUnderIff` | cmd/apid/extract.go:105-144 | on clean paths the containment test accepts exactly the root and its component-wise descendants |
| `TarPaths.StripKeepsOut` | cmd/apid/extract.go:223-238 | stripping the archive root cannot bring in a `..` component |
| `TarPaths.LeadingDirIs` | cmd/apid/extract.go:224-235 | the archive root is what the first name has before its first slash, and nothing when it has no slash |
| `TarPaths.StripIs` | cmd/apid/extract.go:236-238 | a name below that root loses the root and its slash, any other name is left alone |
| `TarPaths.EscapesIff` | cmd/apid/deploy_inputs.go:342-357 | a name is refused exactly when it begins with a slash or `..` stands in it between slashes or ends |
| `TarPaths.AcceptedStaysInside` | cmd/apid/deploy_inputs.go:342-357 | every accepted name, stripped and joined, is inside the directory and passes the later test |
| `TarExtract.JoinCheckUnreachable` | cmd/apid/extract.go:244-267 | the rejection after the join is never reached |
| `TarExtract.EverythingInside` | cmd/apid/extract.go:146-307 | every path at which the loop makes a file or directory, success or not, is the scratch directory or a descendant of it |
| `TarExtract.MkdirAllBelow` | cmd/apid/extract.go:269-289 | making the directories down to a path below the scratch directory makes none outside it |
| `TarExtract.CapsHold` | cmd/apid/extract.go:146-307 | bytes written, also by a copy that fails, never exceed the total cap by more than one file, and on success bytes and entries are within their caps and the entries counted are exactly the named members |
| `TarExtract.RootFixed` | cmd/apid/extract.go:223-238 | the first named member fixes the archive root for all later ones |
| `TarExtract.LastMemberWins` | cmd/apid/extract.go:223-305 | on success the files are, at every path, the last member of that stripped name, and nothing else is a file |
| `TarExtract.MembersLandStripped` | cmd/apid/extract.go:223-305 | on success each place below the scratch directory holds the body of the last regular member whose name, without the directory the first named member begins with, has those components |
| `TarExtract.DirectoriesNeeded` | cmd/apid/extract.go:269-289 | on success the directories are those the scratch directory is in, the directory members, and the directories the members are in, and nothing else |
| `TarExtract.MkdirAllIff` | cmd/apid/extract.go:269-289 | making the directories down to a path succeeds exactly when no file stands at it or above it |
| `TarExtract.ExtractsIff` | cmd/apid/extract.go:146-307 | on a disk that does not fail an archive extracts exactly when it is whole, every named member has an accepted name and type, its files are intact and within the caps, and no member needs a directory where another leaves a file |
| `TarExtract.DefaultLimitsExtractIff` | cmd/apid/extract.go:51-69 | under a plan the caps of that are 10000 named members, 256 MiB a file and 2.5 times the upload cap in all |
| `TarExtract.ValidateTarballShape` | cmd/apid/deploy_inputs.go:291-334 | accepts exactly archives that read to the end, have at most ten thousand headers, and whose names and link targets do not escape |
| `TarExtract.UnpackedPassesShapeIff` | cmd/apid/deploy_inputs.go:291-334 | an archive that extracts passes the shape check exactly when it has at most ten thousand headers and no nameless link that escapes; with all members named and an entry cap within that it always passes |
| `TarExtract.PlanLimitsPassShape` | cmd/apid/extract.go:51-69 | under a plan's limits an archive of named members that extracts passes the shape check and has written at most 2.5 times the upload cap |
| `TarExtract.HasEscapingComponent` | cmd/apid/deploy_inputs.go:342-357 | the component loop finds a leading slash or a `..` component |
| `TarExtract.ExtractTarGzInto` | cmd/apid/extract.go:146-307 | the loop over the members leaves the progress of the members before the first problem, and reports it or a broken stream |
| `TarExtract.Extractor.Next` | cmd/apid/extract.go:192-239 | the loop body on one member: name check, type, entry cap, archive root, and then its placing |
| `TarExtract.Extractor.PlaceMember` | cmd/apid/extract.go:236-275 | the rest of the body: strip, join, containment check, directory or file |
| `TarExtract.Extractor.CopyFile` | cmd/apid/extract.go:276-305 | the file arm: size cap, parents, create, limited copy, running total, with what a failing disk leaves |
| `TarExtract.ExtractTarGzToDir` | cmd/apid/extract.go:89-103 | a failed extraction leaves nothing behind anywhere, a successful one exactly its tree, all of it inside the scratch directory |
| `TenantPages.PaginateTenantRows` | cmd/apid/handlers_admin_obs_projection.go:169-194 | the page is of one newest-first order of the rows: at most the limit of rows before the cursor, newest first; a row before the cursor is left out only by a full page of rows no older, and then, and only then, the next cursor is the whole second of the last row |
| `TenantPages.FindStart` | cmd/apid/handlers_admin_obs_projection.go:173-185 | the loop finds the first row before the cursor; an unreadable cursor starts at the top |
| `TenantPages.SplitAtStart` | cmd/apid/handlers_admin_obs_projection.go:173-185 | the rows before the cursor are exactly those from there on |
| `TenantPages.ServedInOrder` | cmd/apid/handlers_admin_obs_projection.go:163-194 | following the cursors, rows come newest first, however ties are sorted on each request |
| `TenantPages.ServedAtMostOnce` | cmd/apid/handlers_admin_obs_projection.go:163-194 | no row is served twice, and a walk has no more full pages than its rows fill |
| `TenantPages.WalkEnds` | cmd/apid/handlers_admin_obs_projection.go:163-194 | from any cursor following the next cursors comes to a page without one |
| `TenantPages.ServedCount` | cmd/apid/handlers_admin_obs_projection.go:186-194 | a row a finished walk leaves out shares its whole second with some page's last row |
| `TenantPages.CompleteIff` | cmd/apid/handlers_admin_obs_projection.go:163-194 | a finished walk serves every row exactly when no multiple of the limit falls inside a whole second |
| `TenantPages.SameSecondLost` | cmd/apid/handlers_admin_obs_projection.go:186-189 | two rows of one whole second are never both served a row at a time |
| `TenantPages.RowLost` | cmd/apid/handlers_admin_obs_projection.go:186-189 | a finished walk that loses a row |
| `TenantPages.CleanBoundariesMeans` | cmd/apid/handlers_admin_obs_projection.go:186-189 | that condition, boundary by boundary |
| `TenantPages.SameTimes` | cmd/apid/handlers_admin_obs_projection.go:170-172 | any two sorts of the same rows have the same time in each place |
| `AuditEvents.ListAuditEvents` | cmd/apid/handlers_audit.go:86-189 | refuses exactly malformed parameters; otherwise the limit is 50, or the one sent up to 100, every row listed has the prefix, app and time asked for and is among the newest 200 of the account or, on request, of no account, and every such row is listed unless the list is full of rows no older |
| `AuditEvents.FilterUpTo` | cmd/apid/handlers_audit.go:169-184 | the filtering loop gives the first matching rows up to the limit |
| `AuditEvents.AnswerRightIff` | cmd/apid/handlers_audit.go:129-184 | the answer is the newest of the whole history exactly when, for every match beyond the windows, at least the limit of matches inside them are no older |
| `AuditEvents.OwnEventsRightIff` | cmd/apid/handlers_audit.go:129-184 | without anonymous rows the answer is always the newest part, and complete exactly when the window holds the limit of matches or no match lies beyond it |
| `AuditEvents.OwnEventsShort` | cmd/apid/handlers_audit.go:129-184 | a history of which nothing is listed although a row matches |
| `AuditEvents.SinceAloneIsRight` | cmd/apid/handlers_audit.go:129-184 | with anonymous rows and at most a time filter the answer is right however long the histories |
| `AuditEvents.ShortHistoriesAnswered` | cmd/apid/handlers_audit.go:129-184 | histories inside the window are always answered right |
| `AuditEvents.HiddenByNewerRows` | cmd/apid/handlers_audit.go:169-184 | with another filter a window of newer rows can hide a match behind an older anonymous row |
| `AuditEvents.HiddenRowExists` | cmd/apid/handlers_audit.go:63-71 | such histories exist |
| `AuditTrail.MergeAuditTrail` | cmd/apid/handlers_account.go:805-824 | the two-pointer loop computes the merge |
| `AuditTrail.MergeKeepsRows` | cmd/apid/handlers_account.go:805-824 | for any two lists every row comes out exactly as often as it went in |
| `AuditTrail.MergeIsStableSort` | cmd/apid/handlers_account.go:794-824 | for newest-first lists the merge is the stable sort of GDPR rows followed by events |
| `AuditTrail.StableSortUnique` | cmd/apid/handlers_account.go:794-798 | and there is only one such sort |
| `AuditTrail.FormatOrder` | cmd/apid/handlers_account.go:777-850 | comparing two formatted times compares them to the second |
| `AuditTrail.ExportDescends` | cmd/apid/handlers_account.go:777-850 | rows stored newest first are exported in descending text |
| `AuditTrail.TimelineInOrder` | cmd/apid/handlers_account.go:777-850 | the exported timeline is the stable sort and newest first by the second |
| `Rfc3339.TextOrderIsTimeOrder` | cmd/apid/handlers_account.go:809-810 | for years of four digits the byte order of RFC 3339 text is the order of the times |
| `Rfc3339.TextRead` | cmd/apid/handlers_account.go:787-787 | the text has twenty characters, each number of the reading can be read back from its place, and the marks stand between them |
| `Rfc3339.DigitsRead` | cmd/apid/handlers_account.go:787-787 | a number of fixed width is decimal digits and reads back as itself |
| `Rfc3339.CivilAtIsReading` | cmd/apid/handlers_account.go:787-787 | every second has a calendar reading and the reading's seconds are that second |
| `AlertRules.RunSound` | cmd/apid/handlers_alerts.go:302-387 | after any interleaving every rule has its vocabularies, cooldown band, address form and name, and names a failure source exactly when it counts failed invocations |
| `AlertRules.PatchedSound` | cmd/apid/handlers_alerts.go:329-387 | a patch checked against one state of a rule is sound on any later state |
| `AlertRules.NewRowSound` | cmd/apid/handlers_alerts.go:142-213 | an accepted creation stores a sound rule with a trimmed name, enabled and with the default cooldown unless asked otherwise |
| `AlertRules.InsertStores` | cmd/apid/handlers_alerts.go:197-213 | the creation step stores under a new id exactly what the request says, enabled unless it says not, with the cooldown sent or 15 |
| `AlertRules.WriteStores` | cmd/apid/handlers_alerts.go:377-446 | the update step gives each field sent its new value, leaves every other field and rule alone, and its event carries the fields sent |
| `AlertRules.MayInsertIff` | cmd/apid/handlers_alerts.go:152-178 | a creation is let through exactly when the row it would store is sound and the secret has 1 to 256 bytes |
| `AlertRules.MayUpdateIff` | cmd/apid/handlers_alerts.go:329-350 | an update of a sound rule by its owner is let through exactly when the row it would store is sound |
| `AlertRules.TrimIs` | pkg/api/alerts.go:293-296 | trimming takes the white space at both ends off and nothing else |
| `AlertRules.KindFixed` | cmd/apid/handlers_alerts.go:338-350 | owner, app, failure source and metric family never change, and ids are not reused |
| `AlertRules.WritesTellAll` | cmd/apid/handlers_alerts.go:377-452 | in every interleaving the events in order of the writes replay to exactly the stored rules |
| `AlertRules.LogComplete` | cmd/apid/handlers_alerts.go:244-256 | each event is in the log or in flight as often as it was written |
| `AlertRules.LogReplaysIff` | cmd/apid/handlers_alerts.go:377-452 | every run that ends with nothing in flight leaves a log that replays to the stored rules exactly when at most one request runs at a time |
| `AlertRules.OrderedLogReplays` | cmd/apid/handlers_alerts.go:377-452 | any run whose log has each rule's events in the order they were written replays to the stored rules |
| `AlertRules.EmissionOrderCanMislead` | cmd/apid/handlers_alerts.go:377-452 | with two requests or more, updates emitted against their write order leave a log that replays to the wrong name |
| `AlertRules.OldSideUndoesIff` | cmd/apid/handlers_alerts.go:404-446 | the old side of the event of a write takes the rule back to what the write found exactly when no field sent has changed since the request read the rule |
| `AlertRules.OldSidesUndoIff` | cmd/apid/handlers_alerts.go:302-446 | every update event of every run does so exactly when at most one request runs at a time |
| `AlertRules.StaleOldSide` | cmd/apid/handlers_alerts.go:302-446 | with two or more, the second of two renames that read the same row tells an old name it did not replace |
| `AlertRules.NameTrimmedIff` | cmd/apid/handlers_alerts.go:377-387 | in every run a stored name is trimmed exactly when no update has sent a name since the creation, or the last one sent was trimmed |
| `AlertRules.SpacedNameStored` | cmd/apid/handlers_alerts.go:705-708 | a name with white space around it is stored by an update |
| `AlertRules.NewSideReplays` | cmd/apid/handlers_alerts.go:404-446 | applying the new side to any row does what the request did |
| `AlertRules.AlertDesk.CreateAlertRule` | cmd/apid/handlers_alerts.go:142-258 | stores and logs, exactly when the request is valid and accepted, a rule with the fields of the request, enabled unless it says not, with the cooldown sent or 15; the log keeps replaying to the rules |
| `AlertRules.AlertDesk.UpdateAlertRule` | cmd/apid/handlers_alerts.go:302-454 | changes exactly the fields sent of a rule the caller owns, logs them before and after, and keeps the log replaying to the rules |
| `AlertRules.AlertDesk.DeleteAlertRule` | cmd/apid/handlers_alerts.go:463-503 | removes and logs a rule the caller owns, or reports it missing |
| `AlertRules.AlertDesk.RotateAlertRuleSecret` | cmd/apid/handlers_alerts.go:519-598 | leaves every authored field as it was and logs the rotation |
| `AlertRules.UndisturbedUpdate` | cmd/apid/handlers_alerts.go:302-454 | the steps of an update with nothing between them have the effect of the whole handler: the sent fields and the event, when the owner asks and the row stays sound, and nothing otherwise |
| `AlertRules.UndisturbedDelete` | cmd/apid/handlers_alerts.go:463-503 | so do those of a deletion |
| `AlertRules.UndisturbedRotate` | cmd/apid/handlers_alerts.go:519-598 | so do those of a rotation, which changes no rule |
| `BuildPlanCache.RunKeepsInv` | cmd/apid/build_plan_cache.go:79-152 | after any calls the order lists the keys once each, within 1024, by time of storing |
| `BuildPlanCache.EvictsOldest` | cmd/apid/build_plan_cache.go:129-141 | room is made only when full, by giving up an entry none is older than |
| `BuildPlanCache.EvictedThoughJustUsed` | cmd/apid/build_plan_cache.go:100-141 | a run of calls after which the entry used last of all is the one evicted |
| `BuildPlanCache.VictimLeastRecentlyUsedIff` | cmd/apid/build_plan_cache.go:100-141 | the entry next in line is the least recently used exactly when every hit on it was followed by a use of every other entry |
| `BuildPlanCache.OrderIsByStoring` | cmd/apid/build_plan_cache.go:129-152 | after any calls the order lists the entries by the call that stored them |
| `BuildPlanCache.AnswerOrigin` | cmd/apid/build_plan_cache.go:79-125 | an answer not detected now was detected for the same path and modification time, stored less than the lifetime ago |
| `BuildPlanCache.Transparent` | cmd/apid/build_plan_cache.go:79-125 | while path and modification time determine the contents, every call answers what detection would |
| `BuildPlanCache.TransparentIff` | cmd/apid/build_plan_cache.go:79-125 | a call answers what detection would exactly when its entry is missing or not trusted, or detection finds what it found at the storing |
| `BuildPlanCache.RewriteUnseen` | cmd/apid/build_plan_cache.go:39-43 | a rewrite under the same modification time goes unseen for the lifetime and no longer |
| `BuildPlanCache.PlanCache.GetCachedBuildPlan` | cmd/apid/build_plan_cache.go:79-125 | the method answers and changes the cache as the model's call does: unknown without a file, the cached plan for an entry of the same modification time younger than five minutes, otherwise what detection finds, with a version only for a known framework, which is then cached |
| `BuildPlanCache.PlanCache.PutLocked` | cmd/apid/build_plan_cache.go:129-141 | replaces, appends, or evicts the head and appends |
| `BuildPlanCache.PlanCache.RemoveFromOrder` | cmd/apid/build_plan_cache.go:145-152 | drops the first occurrence of the path and nothing else |
| `GraceCache.AnswersGenuine` | cmd/apid/grace_cache.go:89-165 | in every run a returned value was the store's when read, by a lookup that cached it at most one lifetime before; a reported absence of an override was so read or found, or an entry was stored between the lookup's two accesses |
| `GraceCache.UpdateSeenIff` | cmd/apid/handlers_account.go:516-545 | after an update's invalidation only its value is cached, and told to every uninterrupted lookup, until the next update, exactly when no lookup then holds a reading that differs from it, a value or "no override" |
| `GraceCache.SettledRun` | cmd/apid/grace_cache.go:89-165 | from a state with nothing overwritten cached or held, until the next write, only the store's value is cached, every value returned is the store's and every uninterrupted lookup is told it |
| `GraceCache.StaleInHand` | cmd/apid/grace_cache.go:141-152 | with two requests or more a reading of any value or none can be in hand when an update to another invalidates |
| `GraceCache.LookupAnswers` | cmd/apid/grace_cache.go:141-165 | an uninterrupted lookup is told the store's value exactly when no live entry says otherwise |
| `GraceCache.AloneIsExact` | cmd/apid/grace_cache.go:141-152 | with one request in flight every answer, also "no override", is the store's |
| `GraceCache.OverrideMissed` | cmd/apid/grace_cache.go:141-165 | with two or more, a lookup can report no override though one was set all along |
| `GraceCache.ExactIff` | cmd/apid/grace_cache.go:141-165 | every answer of every run is what the store holds exactly when at most one request runs at a time |
| `GraceCache.GraceWindows.ResolveGraceWindow` | cmd/apid/grace_cache.go:141-152 | run alone it returns the store's current value, or that the account is missing, and caches it for sixty seconds unless it came from a live entry |
| `GraceCache.GraceWindows.CacheGet` | cmd/apid/grace_cache.go:89-98 | returns only what the store holds, drops exactly an expired entry and touches no other account |
| `GraceCache.GraceWindows.SetGraceWindow` | cmd/apid/handlers_account.go:516-545 | refuses negative days, else writes, invalidates and reports the value before |
| `DnsVerify.SanContains` | cmd/apid/dns_verify.go:150-178 | true exactly for a non-empty domain that some name equals or covers label by label as a wildcard |
| `DnsVerify.WildcardIff` | cmd/apid/dns_verify.go:158-174 | the string tests on a wildcard name say what its labels say |
| `DnsVerify.OneLabelAboveIff` | cmd/apid/dns_verify.go:165-173 | suffix and dot counts together mean: the base's labels under exactly one more |
| `DnsVerify.EmptyLabelIff` | cmd/apid/dns_verify.go:165-173 | the label a covered domain has of its own is empty exactly when the domain begins with a dot |
| `DnsVerify.EmptyLabelCovered` | cmd/apid/dns_verify.go:158-174 | every well-formed wildcard name covers such a domain |
| `OAuthAccounts.RunInv` | cmd/apid/handlers_github.go:427-462 | in every interleaving, store errors included, addresses are unique, nobody gets an account but their subject's or one with their address, and a sign-in linked to a live account gets it exactly when its lookups by subject did not fail, or its address is that account's and that lookup did not fail |
| `OAuthAccounts.LinkFixed` | cmd/apid/handlers_github.go:430-452 | while the account lives no run moves its subject to another |
| `OAuthAccounts.BoundSubjectAnswered` | cmd/apid/handlers_github.go:430-439 | once a subject is bound, every sign-in by it that starts later and is answered while the account lives is answered with that account, exactly when its lookups by subject did not fail, or its address is that account's and that lookup did not fail |
| `OAuthAccounts.LaterSignInsSee` | cmd/apid/handlers_github.go:430-439 | every such sign-in, in flight or answered, started with that account as its subject's |
| `OAuthAccounts.FailedLookupMisleads` | cmd/apid/handlers_github.go:430-461 | a failed link lookup can give a linked subject a second, new account |
| `OAuthAccounts.OneAccountEach` | cmd/apid/handlers_github.go:452-461 | in every run every account was made by one sign-in and no sign-in made two |
| `OAuthAccounts.OrphanStays` | cmd/apid/handlers_google.go:291-296 | no run binds a link to another account, also when its account is gone, as long as it is not removed with the account |
| `OAuthAccounts.OrphanNotRebound` | cmd/apid/handlers_google.go:285-329 | an account removed without its link: the next sign-in of the subject gets a new account and the link still names the old one |
| `OAuthAccounts.ProvisionsDetermined` | cmd/apid/handlers_google.go:278-329 | what a sign-in does is determined by the directory, so the two flows agree on a verified address |
| `OAuthAccounts.SignInAgain` | cmd/apid/handlers_google.go:278-329 | signing in again changes nothing and gives the same account |
| `OAuthAccounts.ProvisionsBinds` | cmd/apid/handlers_google.go:297-329 | a subject without a link is bound to the account it is given, with its address and verified flag; no other subject is touched and none is moved |
| `OAuthAccounts.ProvisionsKeeps` | cmd/apid/handlers_google.go:297-329 | every account is kept, and one is added, with the address, only when neither subject nor address has one |
| `OAuthAccounts.SameAccountEver` | cmd/apid/handlers_github.go:427-462 | over any sequence of sign-ins, a subject first seen without a link or with a live one is given the same account every time, whatever its address by then |
| `OAuthAccounts.UndisturbedSignIn` | cmd/apid/handlers_github.go:427-462 | the steps of a sign-in with nothing between them and no failure have the effect and answer of the whole flow |
| `OAuthAccounts.Directory.ProvisionOrFetchOAuthAccount` | cmd/apid/handlers_github.go:427-462 | the shared flow, one at a time, does that for any provider, and binds a subject that had no link to the account it answers |
| `OAuthAccounts.Directory.ProvisionOrFetchGoogleAccount` | cmd/apid/handlers_google.go:278-329 | the Google flow does the same with its own verified flag |
| `OAuthAccounts.Directory.UpsertOAuthLink` | pkg/state/memstore.go:9053-9079 | writes a free subject or refreshes its own account's link, and never re-binds |

## Left out

- HTTP, JSON, authentication, logging and response shaping: what a handler does around its store calls.
- The store: an abstract map; its SQL and transactions are not modelled, its errors only where a step has them.
- EnvQuota.EnvHandler.SetEnv: name and value validation, sealing and the classifier that runs after a write are not modelled; a store error is a step of the transition system only.
- Listing environment variables and the dry-run classifier: they read and change nothing the cap depends on.
- FailedLoginAudit.CloseLeavesAtMost: assumes, as the code does, that no emit runs during or after Close; a send on a closed channel panics.
- Histogram.HistogramQuantile: exact reals, no rounding or NaN; two labels that parse to the same bound are one bucket.
- TarExtract.ExtractTarGzInto: gzip framing is the archive's `broken` flag, and the disk fails at given members in one of three ways; modes and owners are not modelled.
- Windows paths and symbolic links on the host: paths are Linux component lists.
- The scan of a Dockerfile for stateful shapes, edge rules, event streams, sessions, billing and configuration overlays.
- TenantPages.PaginateTenantRows: the library sort is one of the orders it may give, rows are a value and not sorted in place; the plan and status filter before it and the row projections are not modelled.
- AuditTrail.TimelineInOrder: rows within one second come GDPR first whatever their fractions; years beyond four digits are outside RFC 3339.
- AlertRules.AlertDesk.UpdateAlertRule: plan gates, quotas, name clashes, the app lookup, address resolution and sealing are one `accepted` outcome; the sealed secret itself is not a field.
- AlertRules.LogComplete: an event that the audit writer fails to store is not modelled.
- The alert evaluator and its deliveries: not part of these handlers.
- GraceCache.AnswersGenuine: one account; the cache treats accounts independently.
- OAuthAccounts.RunInv: addresses are compared after trimming and lower-casing, which is not modelled; the personal organisation made with an account is not modelled.
- OAuthAccounts.Directory.ProvisionOrFetchOAuthAccount: the store does not fail; the transition system has its failures.
- DNS lookups and TLS dialling around the certificate check: foreign calls.
