# HAIP: verified models of its core logic

HAIP is a hotel property-management system. This project models the parts of it whose correctness is not
visible from reading one function, and proves what those parts are for. Each module is one component.

- `Text`, `Gregorian`, `Sorting`, `Wrappers`: the string, calendar and sorting semantics the components rely on
  (string comparison, section 21.4.1 of ECMA-262 for day numbers, section 23.1.3.30 for the stable sort).
- `StayCalendar`: three independent checks of `YYYY-MM-DD` texts, of which two compare texts and one compares
  instants, and the loop that lists the nights of a stay.
- `MigrationRunner`: any number of runners applying SQL files, each from a pending list that may be stale.
- `IntegrationPrincipal`: linking a service account to a user, a role, grants and an assignment over four tables.
- `AcceptedPricingLock`: the reservation row as the mutex of its accepted-price snapshot.
- `FinancialState`: PaymentIntent and refund webhooks, booking-request decisions, and the refund ledger.
- `RequestPaymentSetup` and `BookingFlow`: two client components in which calls, replies, resets and renders interleave.
- `AamvaFields` and `Mrz`: identity-document parsers, each with a printer that the parser undoes.
- `AcceptedServiceMatch` and `Cpf`: the deterministic matching of service rows, and CPF check digits.

How the models are made:

- Objects with state are classes (`UtcDate`, `Database`, `Directory`, `SetupHook`, `Provider`); loops are methods.
  Each is proved equal to a function of its old state, and the results are proved about that function.
- Protocols between several parties are state machines over values: a `Step` function and theorems over every
  finite run of events. An event that is impossible in a state, or that would have to wait, leaves the state as it is.
- What the JavaScript engine makes of a date text is a parameter. It is fixed only where ECMA-262 fixes it, on texts
  that name a real day. On `2023-02-30` the result may be NaN or a day in March, and every theorem holds for both.
- Exceptions and error returns are `Result` values. Money is integer cents. Random ids are fresh numbers.

## Findings

Each of these is proved in the project, with an input or run that shows it and its exact condition.

- A migration file whose version repeats an earlier file's version is never applied: the applied schedule is the whole
  directory exactly when versions are distinct (`MigrationRunner.ScheduleIsAllFiles`). A run completes exactly when its
  pending list repeats no version and every body succeeds (`MigrationRunner.Database.RunPendingSqlMigrations`;
  `MigrationRunner.RepeatedVersionEndsRun` is a run that does not).
- A link refused at the email check has already inserted its role and grants. It changes nothing exactly when they were
  there before (`IntegrationPrincipal.RefusedCallChangesNothing`). The subject who took the email with the same custom
  label then holds what the refused call asked for (`IntegrationPrincipal.RefusedCallGrantsToFirst`,
  `IntegrationPrincipal.RefusedCallWidensFirst`).
- A label slug can end in a dash, because the code strips dashes before it cuts at 48 characters. It does exactly when
  the stripped text is longer than 48 and has a dash in place 48 (`IntegrationPrincipal.SlugTwice`,
  `IntegrationPrincipal.SlugWithFinalDash`).
- The payment-setup hook, taken alone, can show the reply to an earlier request of the same idempotency key but another
  guest email (`RequestPaymentSetup.WhoseReply`, `RequestPaymentSetup.JoinedReplyOfOldEmail`). The page that calls it does
  not get there: the guest changes only on other pages (`RequestApplication.tsx` line 149, `GuestDetails.tsx` line 36),
  while the payment page and its hook are unmounted. With one request per key every call is answered its own request
  (`RequestPaymentSetup.EachIsAnsweredItsOwnRequest`).
- The booking-flow provider, taken alone, allows two submissions in flight after a reset while one is pending, and the
  late reply then acknowledges a flow that was reset (`BookingFlow.OneInFlightThroughout`,
  `BookingFlow.ResetWhilePendingDoublesFlight`, `BookingFlow.StatusFollowsLatestSubmission`,
  `BookingFlow.LateReplyRevivesResetFlow`). The pages guard against it: `Layout.tsx` (lines 33-37) refuses while the render
  shows a pending submission, and `RequestReceived.tsx` (lines 15-45) offers a reset only with an acknowledgement. Under
  those guards neither failure can occur (`BookingFlow.OfferedResetsAreSafe`).
- `ensureRequestPaymentSetupKey`, taken alone, returns a key that was rotated away to a caller whose render still has it,
  exactly while a newer key waits to be rendered (`BookingFlow.SetupKeyIsCurrent`, `BookingFlow.RotatedKeyIsStillReturned`).
  Its one caller, `RequestPayment.tsx` (line 192), asks only when its render has no key, and is then given the newest one.
- The licence parser takes a code for a field wherever it occurs, also across the end of a middle name's own `DAD`: in
  `DADBARBARA` it finds `DBA`, loses the name and returns `RBARA` as the expiry date (`AamvaFields.BarbaraIsLost`). Records
  come back exactly when no code occurs in them behind their start, `DADAD` excepted
  (`AamvaFields.DistinctRecordsComeBack`, `AamvaFields.PlainIffFoundAtStarts`, `AamvaFields.AdamComesBack`).
- The payment-setup hook, taken alone, stays pending after its reply was handled if its effect is cleaned up without
  unmounting, as development mode does, exactly from a cleanup that finds a reply outstanding until the next `mutate` or
  reset (`RequestPaymentSetup.PendingMeansOutstanding`, `RequestPaymentSetup.StrandedHookKeepsWaiting`). The page's
  effect (`RequestPayment.tsx` lines 196-219) is replayed with the cleanup and calls `mutate` again, which joins the
  request in flight (`RequestPaymentSetup.ReplayedEffectJoins`).
- A passport pasted as one line is read only if its issuer has three letters (`Mrz.CompactPassport`,
  `Mrz.OneLetterIssuerIsLost`). The country read from an identity card is its issuer exactly when that is also the
  nationality (`Mrz.CardCountry`, `Mrz.CardIssuerIsLost`). Two-digit years are right exactly for 1931 to 2030 (`Mrz.CenturyRuleExact`).
- Some single wrong digits of a CPF go unnoticed; which ones is stated exactly (`Cpf.OneAlteredDigit`,
  `Cpf.UnnoticedAlterations`).

## Model

| member | source | states |
|---|---|---|
| Text.DigitsOrder | packages/shared/src/canonical-calendar-date.validator.ts:22 | zero-padded numbers of one width compare as text exactly as they compare as numbers |
| Text.TrimOf | apps/dashboard/src/lib/id-document-swipe.ts:116 | trimming takes off exactly the white space at both ends |
| Text.LetterCases | apps/dashboard/src/lib/id-document-swipe.ts:30-39 | capitals and small letters pair up, and nothing else changes |
| Gregorian.CivilOfDayNumber | packages/shared/src/stay-dates.ts:22-26 | every day number has a valid civil date, and that date's day number is the day |
| Gregorian.DayNumberOfCivil | packages/shared/src/stay-dates.ts:22-26 | a valid civil date comes back from its day number |
| Gregorian.DayNumberOrder | packages/shared/src/canonical-calendar-date.validator.ts:22 | day numbers order valid civil dates as year, month, day do |
| Gregorian.ReadsBackIffValid | apps/booking/src/lib/format.ts:68-77 | a year, month and day read back unchanged after carry-over exactly when they are a calendar date |
| Gregorian.CarryOver | packages/shared/src/stay-dates.ts:23 | setting only the day of the month moves the day number by the difference, across months and years |
| Gregorian.NextDay | packages/shared/src/stay-dates.ts:22-26 | the next day number is the next calendar day, by the written-out month ends and leap years, and day 0 is 1970-01-01 |
| StayCalendar.UtcDate.SetUTCDate | packages/shared/src/stay-dates.ts:23 | the instant moves by whole days, keeping its time of day |
| StayCalendar.RoundTripIsOwnDay | packages/shared/src/canonical-calendar-date.validator.ts:15 | an instant's ISO date equals a text exactly when the text names the instant's own day, in any year |
| StayCalendar.CanonicalMeansNamesDay | packages/shared/src/canonical-calendar-date.validator.ts:12-16 | the check accepts exactly the texts that name a day, whatever the engine makes of the others |
| StayCalendar.TextOrderIsDayOrder | packages/shared/src/canonical-calendar-date.validator.ts:22-24 | date texts compare as text exactly as their day numbers compare |
| StayCalendar.CanonicalChecksAcceptStays | packages/shared/src/canonical-calendar-date.validator.ts:18-56 | both text-comparing checks accept exactly the stays, and which pairs fail for their order |
| StayCalendar.StayDates | packages/shared/src/stay-dates.ts:6-27 | accepts exactly the same stays by instants, tells the two errors apart, and returns the nights of the stay |
| StayCalendar.ListNights | packages/shared/src/stay-dates.ts:22-26 | the rolling loop ends and lists the nights from one day up to another |
| StayCalendar.NightAt | packages/shared/src/stay-dates.ts:22-26 | the k-th night is the canonical text of day checkIn + k |
| StayCalendar.NightsIncrease | packages/shared/src/stay-dates.ts:22-26 | later nights are later as text |
| StayCalendar.NightsAreTheDaysBetween | packages/shared/src/stay-dates.ts:22-26 | a text is a night exactly when it names a day from checkIn up to, not including, checkOut |
| StayCalendar.NightsOfStay | packages/shared/src/stay-dates.ts:22-26 | the first night is checkIn and checkOut is none of them |
| StayCalendar.NightsConcat | packages/shared/src/stay-dates.ts:6-27 | the nights of adjacent stays, one after the other, are the nights of the joined stay |
| StayCalendar.SharedNight | packages/shared/src/stay-dates.ts:6-27 | two stays share a night exactly when each begins before the other ends |
| StayCalendar.NightsBetweenCountsNights | apps/booking/src/lib/format.ts:55-60 | the widget's count is the number of nights listed, and 0 exactly when the two days are not a stay |
| StayCalendar.NoNightCounted | apps/booking/src/lib/format.ts:55-60 | for any texts a night is counted exactly when both parse and lie at least half a day apart in order |
| StayCalendar.CountIsRounded | apps/booking/src/lib/format.ts:58 | the count is the difference in days rounded to the nearest, halves up |
| StayCalendar.ParseYmd | apps/booking/src/lib/format.ts:62-79 | returns a date exactly for texts that name a day, and then that day's first instant |
| StayCalendar.KnownDates | packages/shared/src/canonical-calendar-date.validator.ts:10-16 | 2024-02-29 is day 19782 both ways, three texts that name no day, and a day is 86400000 ms |
| Sorting.SortIsStable | packages/database/src/migration-runner.ts:52 | the sort orders its items, keeps them all, and keeps ties in their order |
| MigrationRunner.MigrationFilenameExact | packages/database/src/migration-runner.ts:20-32 | a file name is recognised with a version exactly when it is four digits, an underscore, a one-line name and `.sql` |
| MigrationRunner.TrackedFrom22 | packages/database/src/migration-runner.ts:15-18 | tracked are exactly the recognised names with version 22 or more |
| MigrationRunner.ListTrackedMigrationFiles | packages/database/src/migration-runner.ts:38-54 | the loop and the sort return the directory's tracked files by version |
| MigrationRunner.TrackedFilesSorted | packages/database/src/migration-runner.ts:38-54 | exactly the files of version 22 or more come out, in version order, equal versions in directory order |
| MigrationRunner.StaleListOffersFirstMissing | packages/database/src/migration-runner.ts:74-92 | a list filtered by an old ledger still offers the first file missing from the current one |
| MigrationRunner.StepKeepsInvariant | packages/database/src/migration-runner.ts:56-95 | every step of every runner keeps: ledger equals bodies, both a prefix of the schedule, no two transactions holding one row |
| MigrationRunner.CommittedIsPrefixOfSchedule | packages/database/src/migration-runner.ts:38-104 | in every run of any number of runners, with crashes: committed bodies are a prefix of the files by version, each version once, and the ledger lists exactly them |
| MigrationRunner.CommittedOnlyGrows | packages/database/src/migration-runner.ts:74-95 | no event takes a committed migration back, and none but a commit adds one |
| MigrationRunner.LoneRunnerCommits | packages/database/src/migration-runner.ts:81-91 | with nobody in its way a runner's five steps commit the first missing file, body and row |
| MigrationRunner.StaleRunnerIsStopped | packages/database/src/migration-runner.ts:81-91 | a runner whose next file another committed is stopped by the primary key and commits nothing |
| MigrationRunner.CrashBlocksNobody | packages/database/src/migration-runner.ts:81-91 | a crash rolls the open transaction back, and another runner then commits the file |
| MigrationRunner.ScheduleVersions | packages/database/src/migration-runner.ts:97-104 | the schedule has one file of every version in the directory |
| MigrationRunner.ScheduleIsAllFiles | packages/database/src/migration-runner.ts:97-104 | the schedule is the whole directory exactly when versions are distinct |
| MigrationRunner.Database.ListPendingMigrations | packages/database/src/migration-runner.ts:97-104 | the files whose version the ledger lacks, in order |
| MigrationRunner.PendingMembers | packages/database/src/migration-runner.ts:97-104 | a file is pending exactly when it is tracked and its version not applied |
| MigrationRunner.Database.Transaction | packages/database/src/migration-runner.ts:81-91 | body and ledger row are committed together or not at all, and only if the version is new |
| MigrationRunner.Database.RunPendingSqlMigrations | packages/database/src/migration-runner.ts:74-95 | commits exactly the pending files before the first failure and names them; completes exactly when no pending version repeats and every body succeeds |
| MigrationRunner.AllCommitExactly | packages/database/src/migration-runner.ts:81-91 | all files of a list commit exactly when every body succeeds, versions are distinct and none is in the ledger |
| MigrationRunner.CommitsUntilFirstFailure | packages/database/src/migration-runner.ts:81-91 | what commits of a list is its longest front of succeeding bodies with new, distinct versions |
| MigrationRunner.RepeatedVersionEndsRun | packages/database/src/migration-runner.ts:81-104 | of two files of one version the first commits, the second ends the run and is not listed again |
| MigrationRunner.OneRunFinishes | packages/database/src/migration-runner.ts:74-95 | from any reachable ledger one undisturbed run leaves every file committed once |
| IntegrationPrincipal.SlugShape | packages/database/src/integration-principal.ts:74-81 | slugs have 1 to 48 letters, digits and single dashes and start with no dash |
| IntegrationPrincipal.SlugTwice | packages/database/src/integration-principal.ts:74-81 | a slug ends in a dash exactly when the stripped text is longer than 48 and has a dash at the cut; exactly then slugifying again changes it, dropping the dash |
| IntegrationPrincipal.CutBehindDash | packages/database/src/integration-principal.ts:74-81 | every label of 47 letters or digits, a blank and one more has such a slug |
| IntegrationPrincipal.SlugWithFinalDash | packages/database/src/integration-principal.ts:74-81 | one such label |
| IntegrationPrincipal.SlugOfTwoWords | packages/database/src/integration-principal.ts:74-81 | letter case is dropped, a run of other characters becomes one dash, and those at the ends disappear |
| IntegrationPrincipal.SubjectIsUuid | packages/database/src/integration-principal.ts:11-12 | a subject is accepted exactly when it is a UUID of version 1 to 5 with the RFC variant, in either letter case |
| IntegrationPrincipal.EarlyRefusals | packages/database/src/integration-principal.ts:91-99 | which early refusal is given, in order, with the custom allow-list written out |
| IntegrationPrincipal.Directory.EnsureGrants | packages/database/src/integration-principal.ts:136-155 | the loop adds the grants that are missing, in order |
| IntegrationPrincipal.AddGrantsContents | packages/database/src/integration-principal.ts:136-155 | afterwards the grants are the old ones and the requested ones, each once |
| IntegrationPrincipal.Directory.EnsureRole | packages/database/src/integration-principal.ts:103-158 | the role found or one created, whether it was created, and its grants |
| IntegrationPrincipal.Directory.EnsureUser | packages/database/src/integration-principal.ts:249-309 | the user found by subject, by email or created, or the refusal of another subject's email |
| IntegrationPrincipal.Directory.LinkIntegrationPrincipal | packages/database/src/integration-principal.ts:160-338 | the whole call changes the four tables and answers as the specification says, refusals included |
| IntegrationPrincipal.LinkedRole | packages/database/src/integration-principal.ts:186-247 | the answer's role key and email by profile, and the role row with its property, name and flag |
| IntegrationPrincipal.LinkedUser | packages/database/src/integration-principal.ts:249-309 | the user row is new, adopted by its email, or renamed, field by field; no other user changes |
| IntegrationPrincipal.LinkKeepsTables | packages/database/src/integration-principal.ts:160-338 | a link, completed or refused, keeps emails, subjects, role keys, grants and assignments unique and removes nothing |
| IntegrationPrincipal.RunKeepsTables | packages/database/src/integration-principal.ts:160-338 | so does every run of links |
| IntegrationPrincipal.LinkLeavesOtherProperties | packages/database/src/integration-principal.ts:136-155 | grants and assignments of every other property stay as they were |
| IntegrationPrincipal.LinkSettles | packages/database/src/integration-principal.ts:160-338 | a completed link leaves its user bound, its role, all its grants and its assignment in place |
| IntegrationPrincipal.SettledLinkCreatesNothing | packages/database/src/integration-principal.ts:160-338 | on such tables the call returns the same ids, three false flags, and rewrites only a user's name |
| IntegrationPrincipal.RepeatedLink | packages/database/src/integration-principal.ts:160-338 | repeating a completed link after any further run of links returns the same ids with all created flags false |
| IntegrationPrincipal.WhenRefused | packages/database/src/integration-principal.ts:160-276 | a call is refused exactly by an early check or when its subject is new and its email belongs to a bound user; early it changes nothing, late it keeps users and assignments and leaves role and grants in place |
| IntegrationPrincipal.RefusedCallChangesNothing | packages/database/src/integration-principal.ts:186-276 | such a refused call changes nothing exactly when its role and all requested grants were there before |
| IntegrationPrincipal.RolesFollowRun | packages/database/src/integration-principal.ts:311-327 | after a run a subject has a role at a property exactly when a completed link of it used that role there |
| IntegrationPrincipal.GrantsFollowRun | packages/database/src/integration-principal.ts:136-155 | after a run a role is granted a permission exactly when some call, completed or refused late, granted it |
| IntegrationPrincipal.HoldsExactlyWhatWasLinked | packages/database/src/integration-principal.ts:160-338 | a subject holds a permission at a property exactly when a completed link gave it a role there and some call granted that permission to that role there |
| IntegrationPrincipal.SystemProfileHoldsItsKeys | packages/database/src/integration-principal.ts:16-39 | in every run a subject linked at a property only as inventory holds there exactly rooms.read, rooms.write and ops.manage, and one linked only as reservations exactly that profile's five keys |
| IntegrationPrincipal.LinkHoldsWhatItAskedFor | packages/database/src/integration-principal.ts:186-247 | after any run the subject of a completed link holds at least its profile's keys |
| IntegrationPrincipal.RefusedCallGrantsToFirst | packages/database/src/integration-principal.ts:186-276 | of two custom links of one label for two subjects the second is refused, and the first subject then holds all that it asked for |
| IntegrationPrincipal.RefusedCallWidensFirst | packages/database/src/integration-principal.ts:186-276 | a run in which the first subject gains a permission by the refused call alone |
| AcceptedPricingLock.StepKeepsInvariant | packages/booking-requests/src/domain/accepted-pricing-lock.ts:17-42 | every step keeps: one holder per row, drafts computed from the committed snapshot, logs in lock order |
| AcceptedPricingLock.NeverOverlap | packages/booking-requests/src/domain/accepted-pricing-lock.ts:13-42 | critical sections of one reservation never overlap, with nested calls, waits, aborts and crashes |
| AcceptedPricingLock.NoLostUpdate | packages/booking-requests/src/domain/accepted-pricing-lock.ts:13-42 | the snapshot is the committed works applied whole, one after another, in lock order |
| AcceptedPricingLock.WorkSeesOnlyItself | packages/booking-requests/src/domain/accepted-pricing-lock.ts:24-39 | inside the lock the work runs as if alone on the committed snapshot |
| AcceptedPricingLock.OnlyCommitChangesRows | packages/booking-requests/src/domain/accepted-pricing-lock.ts:41 | a row changes only when a transaction that holds it commits, by that transaction's own work |
| AcceptedPricingLock.EnterLetsIn | packages/booking-requests/src/domain/accepted-pricing-lock.ts:24-39 | a call gets in exactly when its transaction is open, the row has that property and key, and no other transaction holds it; then it reads the committed snapshot or goes on with its own lock |
| AcceptedPricingLock.HeldUntilTheEnd | packages/booking-requests/src/domain/accepted-pricing-lock.ts:24-41 | a lock and its work are kept until their transaction commits or aborts, also when a call returns |
| AcceptedPricingLock.LoneWorkCommits | packages/booking-requests/src/domain/accepted-pricing-lock.ts:24-41 | with nobody in its way a transaction's work is committed and logged |
| AcceptedPricingLock.AbortReleases | packages/booking-requests/src/domain/accepted-pricing-lock.ts:24-41 | an abort discards the work and frees the row for the next transaction |
| AcceptedPricingLock.WritesUseTheLastRead | packages/booking-requests/src/domain/accepted-pricing-lock.ts:13-16 | a work's write uses its last read, whatever it wrote since |
| FinancialState.RunFollowsVerdict | packages/shared/src/stripe-financial-state.ts:98-130 | in any run of deliveries at most one is a transition; the final status is that of the first decisive event from pending, `captured` from authorized if a success is accepted, else unchanged |
| FinancialState.PaymentDecisions | packages/shared/src/stripe-financial-state.ts:98-130 | the decision for each status, event and request status, written out |
| FinancialState.PendingEndsByFirstDecisive | packages/shared/src/stripe-financial-state.ts:98-130 | a pending payment ends captured, voided or failed by its first decisive event |
| FinancialState.PaymentFollowsItsWebhooks | packages/shared/src/stripe-financial-state.ts:109-130 | in any interleaving a payment ends as its own webhooks, with the request's status at each, leave it |
| FinancialState.TerminalStays | packages/shared/src/stripe-financial-state.ts:109-130 | any other status never changes |
| FinancialState.ReplayChangesNothing | packages/shared/src/stripe-financial-state.ts:108-130 | delivering the whole run again changes nothing |
| FinancialState.DecidedAtMostOnce | packages/booking-requests/src/domain/booking-request-state.ts:5-18 | however decisions and webhooks interleave, an undecided request is decided at most once, and ends accepted or denied as its first decision says |
| FinancialState.NoCaptureAfterDenial | packages/shared/src/stripe-financial-state.ts:119-123 | after a denial a payment is captured exactly if it was captured before it |
| FinancialState.RefundStepMonotone | packages/booking-requests/src/domain/booking-request-stripe.handler.ts:575-706 | the remaining amount never rises, child rows are only added, a settled claim never moves again |
| FinancialState.RefundConservation | packages/shared/src/payment-ledger.ts:4-19 | after every run captured = remaining + completed claims, with one child row of its amount per completed claim and no other |
| FinancialState.NeverRefundsBeyondCaptured | packages/shared/src/payment-ledger.ts:14-19 | claims that together fit the captured amount never refund more than it |
| FinancialState.ClaimMovesAtMostOnce | packages/shared/src/stripe-financial-state.ts:139-156 | each claim changes status at most once, and has a movement exactly when completed |
| FinancialState.RefundDecisions | packages/shared/src/stripe-financial-state.ts:139-156 | the refund decision for each claim status and provider status, written out |
| FinancialState.ClaimEndsByFirstSettling | packages/booking-requests/src/domain/booking-request-stripe.handler.ts:575-706 | in every run a claim ends by its first success while not denied, failure or cancellation: completed with its child row, or failed without; else pending |
| FinancialState.RefundRequestDecided | packages/booking-requests/src/domain/booking-request-stripe.handler.ts:575-706 | the request's status in a refund run is that of its first decision |
| FinancialState.ClaimEndsAsFollowed | packages/booking-requests/src/domain/booking-request-stripe.handler.ts:575-706 | in any interleaving a claim ends as it would with only its own updates and the request's decisions |
| FinancialState.InterleavingDoesNotMatter | packages/booking-requests/src/domain/booking-request-stripe.handler.ts:575-706 | interleavings that agree claim by claim leave the same statuses and the same remaining amount |
| RequestPaymentSetup.SetupHook.Mutate | apps/booking/src/pages/RequestPayment.tsx:98-123 | the refs, the state and the network after a call, joining a request in flight of the same key |
| RequestPaymentSetup.SetupHook.RunCallback | apps/booking/src/pages/RequestPayment.tsx:106-122 | a settled promise clears its own flight only and shows its result only in its own generation |
| RequestPaymentSetup.SendsUnlessInFlight | apps/booking/src/pages/RequestPayment.tsx:98-123 | in every run a `mutate` sends no new call exactly when the one before had its key and no callback of that promise has run, and then waits on that promise |
| RequestPaymentSetup.StepKeepsInvariant | apps/booking/src/pages/RequestPayment.tsx:83-139 | every event keeps the generations in order and ties what is shown to the latest `mutate` |
| RequestPaymentSetup.ShowsLatestReply | apps/booking/src/pages/RequestPayment.tsx:83-139 | while mounted a result shown is the reply to the latest `mutate`'s promise, and pending is shown exactly while that reply is outstanding and undisturbed, or stranded by a cleanup without unmount |
| RequestPaymentSetup.PendingMeansOutstanding | apps/booking/src/pages/RequestPayment.tsx:83-139 | in runs without such a cleanup pending means exactly that the newest call's reply is outstanding; otherwise it fails exactly when a stranded reply was handled |
| RequestPaymentSetup.IdleExactlyWhenCleared | apps/booking/src/pages/RequestPayment.tsx:125-128 | while mounted nothing is shown exactly before the first `mutate` and from a reset to the next one |
| RequestPaymentSetup.StrandedHookKeepsWaiting | apps/booking/src/pages/RequestPayment.tsx:91-96 | a run of the hook alone that shows pending after the reply was handled |
| RequestPaymentSetup.ReplayedEffectJoins | apps/booking/src/pages/RequestPayment.tsx:196-219 | when the calling effect is replayed with the cleanup, nothing is sent twice and the hook waits for the first request's reply |
| RequestPaymentSetup.CallbackIsCurrentIffUndisturbed | apps/booking/src/pages/RequestPayment.tsx:83-139 | a callback has the current generation exactly when no reset, cleanup or unmount followed the latest `mutate` |
| RequestPaymentSetup.LateRepliesAreIgnored | apps/booking/src/pages/RequestPayment.tsx:125-128 | after a reset, cleanup or unmount no run of arrivals changes the state, until the next `mutate` |
| RequestPaymentSetup.UnmountFreezesState | apps/booking/src/pages/RequestPayment.tsx:91-96 | after an unmount the state is final, and until a further `mutate` no callback's generation is current, so none attempts an update |
| RequestPaymentSetup.WhoseReply | apps/booking/src/pages/RequestPayment.tsx:101-105 | a promise answers a request of the same key, and the very request exactly when none in flight that differs was joined |
| RequestPaymentSetup.JoinedReplyOfOldEmail | apps/booking/src/pages/RequestPayment.tsx:101-105 | a run of the hook alone in which the reply to the old email is shown for the new one |
| RequestPaymentSetup.EachIsAnsweredItsOwnRequest | apps/booking/src/pages/RequestPayment.tsx:196-219 | when one key stands for one request, as the page ensures, every call waits for the reply to its own request |
| BookingFlow.Provider.EnsureRequestIdempotencyKey | apps/booking/src/context/BookingFlowContext.tsx:179-189 | the key returned and the ref and queue afterwards, for a caller holding any earlier render |
| BookingFlow.Provider.EnsureRequestPaymentSetupKey | apps/booking/src/context/BookingFlowContext.tsx:190-197 | likewise for the set-up key |
| BookingFlow.Provider.RotateRequestPaymentSetupKey | apps/booking/src/context/BookingFlowContext.tsx:198-203 | a new key is returned, stored in the ref and queued |
| BookingFlow.Provider.SubmitRequest | apps/booking/src/context/BookingFlowContext.tsx:204-244 | joins the submission in the ref or sends one and stores it |
| BookingFlow.Provider.Finally | apps/booking/src/context/BookingFlowContext.tsx:236-240 | a finished submission clears the ref only if it is the one stored |
| BookingFlow.SingleFlight | apps/booking/src/context/BookingFlowContext.tsx:204-244 | in runs that never reset while one is pending, one submission at most is in flight and every caller during it gets that one |
| BookingFlow.OthersInFlightWereAbandoned | apps/booking/src/context/BookingFlowContext.tsx:204-250 | in every run, a submission in flight is the one in the ref exactly unless a reset abandoned it |
| BookingFlow.RetryAfterReply | apps/booking/src/context/BookingFlowContext.tsx:204-244 | once a submission is answered and its `finally` has run, the next submit goes out as a new one |
| BookingFlow.OneInFlightThroughout | apps/booking/src/context/BookingFlowContext.tsx:204-250 | throughout a run at most one submission is in flight exactly when no submit went out beside an abandoned unfinished one |
| BookingFlow.ResetWhilePendingDoublesFlight | apps/booking/src/context/BookingFlowContext.tsx:245-250 | a run of the provider alone with two submissions in flight |
| BookingFlow.OneKeyPerPeriod | apps/booking/src/context/BookingFlowContext.tsx:179-189 | between two resets every call from a render of that period returns one key, however far renders lag |
| BookingFlow.NewKeyAfterReset | apps/booking/src/context/BookingFlowContext.tsx:179-189 | in every run the key given after a reset differs from every one given to the period before it |
| BookingFlow.SetupKeyIsCurrent | apps/booking/src/context/BookingFlowContext.tsx:190-203 | a caller of the current render is given the ref's key exactly when its render has no key or no newer one waits in the queue; one that asks only without a key is given it from any render |
| BookingFlow.RotatedKeyIsStillReturned | apps/booking/src/context/BookingFlowContext.tsx:190-203 | a run of the provider alone in which a key rotated away is returned |
| BookingFlow.StatusFollowsLatestSubmission | apps/booking/src/context/BookingFlowContext.tsx:120-250 | the reducer's final status is that of the latest submission since the reset exactly when no late reply stands unoverridden, or the one standing says the same |
| BookingFlow.LateReplyRevivesResetFlow | apps/booking/src/context/BookingFlowContext.tsx:213-223 | a run of the provider alone in which a late reply acknowledges a flow that was reset |
| BookingFlow.OfferedResetsAreSafe | apps/booking/src/components/Layout.tsx:32-38 | when resets are only those the pages offer, none abandons a submission, at most one is in flight, callers get that one, and the status is always that of the latest submission |
| BookingFlow.OutcomeIsTheLatest | apps/booking/src/context/BookingFlowContext.tsx:204-244 | with such resets the error shown, and the acknowledgement unless a page took it back, are the latest submission's |
| BookingFlow.ChoicesAfter | apps/booking/src/context/BookingFlowContext.tsx:120-150 | how each event changes the criteria, branding, selection, services and form that are eventually shown |
| BookingFlow.CriteriaOutliveResets | apps/booking/src/context/BookingFlowContext.tsx:144-148 | the criteria last set outlive every reset |
| AamvaFields.ParseAamvaFields | apps/dashboard/src/lib/id-document-swipe.ts:97-121 | the loops compute the fields of the text without carriage returns |
| AamvaFields.ReturnChangesNothing | apps/dashboard/src/lib/id-document-swipe.ts:98 | a carriage return anywhere in the text leaves the parsed fields as they were |
| AamvaFields.CollectHits | apps/dashboard/src/lib/id-document-swipe.ts:100-108 | the nested search loops find the non-overlapping occurrences of every code |
| AamvaFields.HitsOfMembers | apps/dashboard/src/lib/id-document-swipe.ts:99-109 | the sorted hits are exactly those occurrences, strictly by start |
| AamvaFields.HitsAreRecords | apps/dashboard/src/lib/id-document-swipe.ts:99-109 | the hits in printed records are the records exactly when every occurrence the search finds is where a record starts |
| AamvaFields.PlainIffFoundAtStarts | apps/dashboard/src/lib/id-document-swipe.ts:99-109 | that is so exactly when no code starts in the header and none occurs in a record behind its start, `DADAD` excepted |
| AamvaFields.ValuesHoldNoCode | apps/dashboard/src/lib/id-document-swipe.ts:110-119 | no value the parser returns holds a code of the list |
| AamvaFields.FirstValuesMeaning | apps/dashboard/src/lib/id-document-swipe.ts:111-119 | a code has a field exactly when some record of it is not blank, with the first such value |
| AamvaFields.ParseUndoesPrint | apps/dashboard/src/lib/id-document-swipe.ts:97-121 | when codes are found only at record starts, records printed behind any header and sent with carriage returns anywhere come back as the first non-blank value of each code |
| AamvaFields.DistinctRecordsComeBack | apps/dashboard/src/lib/id-document-swipe.ts:97-121 | trimmed records of distinct codes behind a header without codes, sent with carriage returns anywhere, come back exactly when every record is plain, and then nothing else does |
| AamvaFields.EveryListedCodeIsRead | apps/dashboard/src/lib/id-document-swipe.ts:77-95 | each of the seventeen codes, written out, is read |
| AamvaFields.ValueAcrossNewlines | apps/dashboard/src/lib/id-document-swipe.ts:112-116 | a value may stand lines below its code and ends with its line |
| AamvaFields.BarbaraIsLost | apps/dashboard/src/lib/id-document-swipe.ts:99-119 | the middle name BARBARA is lost, and RBARA is returned as the expiry date in place of the real one |
| AamvaFields.AdamComesBack | apps/dashboard/src/lib/id-document-swipe.ts:99-119 | the middle name ADAM comes back, its overlapping second `DAD` notwithstanding |
| Mrz.TitleCaseOfWords | apps/dashboard/src/lib/id-document-swipe.ts:30-39 | words between blanks or hyphens come back each in title case with blanks between |
| Mrz.NamesComeBack | apps/dashboard/src/lib/id-document-swipe.ts:162-174 | a printed name field gives the surname, first and middle names back in title case, whatever the padding |
| Mrz.DayComesBack | apps/dashboard/src/lib/id-document-swipe.ts:61-69 | a printed date comes back under the century rule |
| Mrz.CenturyRuleExact | apps/dashboard/src/lib/id-document-swipe.ts:61-69 | the year read is the year printed exactly for 1931 to 2030, with the years just outside read a century off |
| Mrz.Td3RoundTrip | apps/dashboard/src/lib/id-document-swipe.ts:203-224 | the two lines of a passport give the holder's data back |
| Mrz.Td1RoundTrip | apps/dashboard/src/lib/id-document-swipe.ts:226-245 | the three lines of a card give it back, with the nationality as country |
| Mrz.CardCountry | apps/dashboard/src/lib/id-document-swipe.ts:226-245 | the country read is the printed issuer exactly when that is the nationality |
| Mrz.CardIssuerIsLost | apps/dashboard/src/lib/id-document-swipe.ts:226-245 | a card issued by `D` to a holder of nationality `UTO` reads as issued by `UTO` |
| Mrz.PassportRoundTrip | apps/dashboard/src/lib/id-document-swipe.ts:176-201 | so does the text a reader sends, with any line ends, blanks around the lines and letters of either case |
| Mrz.RaggedPassport | apps/dashboard/src/lib/id-document-swipe.ts:194-196 | also without the first line's last fillers and with more characters behind the second line |
| Mrz.NoiseIsDropped | apps/dashboard/src/lib/id-document-swipe.ts:177-181 | lines that are too short or hold other characters are passed over |
| Mrz.OtherZonesAreRefused | apps/dashboard/src/lib/id-document-swipe.ts:193-200 | two lines that are not a passport are refused |
| Mrz.OtherCardsAreRefused | apps/dashboard/src/lib/id-document-swipe.ts:197-200 | three lines that do not start with A, C or I are refused |
| Mrz.WhenPassportIsRead | apps/dashboard/src/lib/id-document-swipe.ts:203-209 | two lines are read exactly when both have 44 characters and some name |
| Mrz.PassportColumnsRead | apps/dashboard/src/lib/id-document-swipe.ts:203-224 | the document number, nationality and country read, an empty column giving nothing |
| Mrz.PassportSpecimen | apps/dashboard/src/lib/id-document-swipe.ts:203-224 | the specimen passport of Doc 9303-4 is read as printed |
| Mrz.CardSpecimen | apps/dashboard/src/lib/id-document-swipe.ts:226-245 | the specimen card of Doc 9303-5 is read as printed |
| Mrz.UnreadableParts | apps/dashboard/src/lib/id-document-swipe.ts:61-75 | a sex or a date of another form is left out |
| Mrz.IdCardRoundTrip | apps/dashboard/src/lib/id-document-swipe.ts:176-201 | likewise for cards |
| Mrz.CompactPassport | apps/dashboard/src/lib/id-document-swipe.ts:182-188 | pasted as one line with blanks anywhere and letters of either case, it is read exactly when the issuer has three letters |
| Mrz.OneLetterIssuerIsLost | apps/dashboard/src/lib/id-document-swipe.ts:182-188 | a passport issued by `D` that is read from two lines and not from one |
| AcceptedServiceMatch.MatchAcceptedReservationServiceRows | packages/booking-requests/src/domain/accepted-reservation-service.ts:33-56 | the services matched are those that have a row, each matched to the first of its sorted candidates |
| AcceptedServiceMatch.ComparatorIsConsistent | packages/booking-requests/src/domain/accepted-reservation-service.ts:45-52 | the comparator is a consistent order, as the sort requires |
| AcceptedServiceMatch.MatchIsTheLeastRow | packages/booking-requests/src/domain/accepted-reservation-service.ts:33-56 | with distinct ids a row is the match exactly when it precedes every other row of the service: booking engine first, then earlier created, then smaller id; no row, no match |
| AcceptedServiceMatch.BookingEngineRowsWin | packages/booking-requests/src/domain/accepted-reservation-service.ts:45-48 | a row whose channel is booking_engine keeps every other row from being matched |
| AcceptedServiceMatch.EarlierRowsWin | packages/booking-requests/src/domain/accepted-reservation-service.ts:18-52 | of two rows of one provenance the earlier created goes first, unparsed times last, and then the smaller id |
| AcceptedServiceMatch.LeastIsUnique | packages/booking-requests/src/domain/accepted-reservation-service.ts:33-56 | a service has at most one least row |
| AcceptedServiceMatch.OrderDoesNotMatter | packages/booking-requests/src/domain/accepted-reservation-service.ts:27-32 | the match is the same for every order of the rows |
| AcceptedServiceMatch.NotDisplaced | packages/booking-requests/src/domain/accepted-reservation-service.ts:27-32 | added front-desk or later-created rows do not displace a matched booking-engine row |
| AcceptedServiceMatch.FrontDeskMatchGivesWay | packages/booking-requests/src/domain/accepted-reservation-service.ts:45-48 | a front-desk match gives way to any booking-engine row, however late |
| AcceptedServiceMatch.DifferentServicesDifferentRows | packages/booking-requests/src/domain/accepted-reservation-service.ts:33-56 | different services get different rows |
| Cpf.ValidateCpf | packages/shared/src/index.ts:311-334 | the two loops accept exactly the non-uniform eleven digits whose two checks hold |
| Cpf.SumsWrittenOut | packages/shared/src/index.ts:317-331 | the loops' sums are the digits with the published weights 10 to 2 and 11 to 2 |
| Cpf.FormatKeepsDigits | packages/shared/src/index.ts:336-342 | formatting any text keeps its digits and its validity, and formatting twice changes nothing |
| Cpf.FormatShape | packages/shared/src/index.ts:336-342 | eleven digits are printed as 000.000.000-00 and anything else is returned as it came |
| Cpf.UniformPassesChecks | packages/shared/src/index.ts:315 | one repeated digit passes both checks, so the separate refusal is needed |
| Cpf.OneValidCompletion | packages/shared/src/index.ts:311-334 | a base of nine digits has exactly one valid pair of check digits, or none if it repeats one digit |
| Cpf.OneAlteredDigit | packages/shared/src/index.ts:317-331 | exactly which alterations of one digit leave a valid number valid |
| Cpf.UnnoticedAlterations | packages/shared/src/index.ts:317-331 | such alterations exist: of the first digit by one, of the sixth by two and by nine |

## Left out

- User interface: all other pages and components, routing, translations, payment widgets and `Intl` formatting.
- Plumbing: HTTP clients, sockets, Keycloak, guards, start-up code, the schema push and the seed data.
- MigrationRunner: SQL text, the file system and creating the ledger table; a body is an event that succeeds or fails.
  Bodies that contain their own transaction control are not modelled, and the directory does not change during a run.
- IntegrationPrincipal: calls run one after another; the statements of concurrent calls are not interleaved. A row's id is
  its position in its table.
- IntegrationPrincipal: column lengths. A custom role key can reach 60 characters where the column holds 50; the
  database's refusal of it is not modelled. Timestamps are left out too.
- IntegrationPrincipal.HoldsExactlyWhatWasLinked: starts from an empty directory, where every user row is bound; rows
  whose subject is not set, which the code can adopt by email, are covered by the other results.
- MigrationRunner, AcceptedPricingLock, FinancialState: deliveries, runners and transactions are a state machine over
  values, because the parties share only the database. Update in place inside one party is not part of those machines.
- AcceptedPricingLock: deadlock between transactions that lock different reservations; such transactions wait forever here.
- FinancialState: the handler's checks of amount, currency and provider identity, the look-up of a child row by provider
  id, audit rows and legacy events. Each claim has its own provider refund id.
- BookingFlow.OfferedResetsAreSafe: assumes that a click that resets finds the microtasks of handled replies run and
  everything dispatched rendered, as browsers and React ensure between user events; routing is not modelled.
- AamvaFields.DistinctRecordsComeBack: a header in which a code starts is excluded; its fields then depend on the header.
- AamvaFields.ParseUndoesPrint: with repeated codes a code found elsewhere can go unnoticed in the fields, when an earlier
  record already gave its value; the exact condition is stated for the hits and for distinct codes.
- RequestPaymentSetup.EachIsAnsweredItsOwnRequest: that the page passes one request per key is a condition, read from
  its source; the page itself is not modelled.
- RequestPaymentSetup and BookingFlow: React reduces some prefix of the queued actions at each render; no other
  scheduling detail is modelled. The reducer's return of the same object for a patch that changes nothing is not observable here.
- Non-ASCII letter case and the internals of `localeCompare`, which is a given total order of ids.
- AcceptedServiceMatch: `Date` objects that hold NaN, with which the source's comparator is not an order.
- Mrz: check digits, which the parser ignores (they are arbitrary in the round trips), document numbers of more than
  nine characters and names that do not fit their field.
- The rest of the identity-document reader: `parseAamva`'s choice of name fields, magnetic stripes, and the dispatch
  between formats, which would add easy members.
- Server-side folio, accounting, night audit, availability and agent logic: its source is not part of this model.
- `is-money-string`, `property-id`, `theme`, `worldline-sync`, `realtimeQueryKeys`: easy members only.
