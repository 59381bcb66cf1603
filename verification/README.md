# A verified model of the learning center

Learners enroll in courses and complete lessons; an administrator's view and a credentials contract say who may
take part; a web application signs people in through an OpenID Connect provider. This project models the parts of
that system where several pieces of state must agree, and proves that they do. `dafny verify dfyconfig.toml` checks
everything.

| files | part of the system |
|---|---|
| `Catalog`, `ProgressLog`, `ProgressInvariants`, `ProgressMeaning`, `ProgressRuns`, `LearnerPage` | the completion log, the cached counts and the derived status as one value; what each transaction does to them alone, also in terms of the rows only; whole runs; the page that offers the next lesson |
| `ProgressStore` | the store and the reconciler as methods that update the tables, proved equal to those specifications |
| `Transactions`, `Serializability`, `ConcurrentRepair`, `RepairRace`, `Retries` | the same transactions interleaved statement by statement, with row locks, READ COMMITTED and REPEATABLE READ; when repair works; what holds over time |
| `SerialOrder`, `SoloRuns`, `RepairCommutes`, `SerialRuns`, `ResetAnomaly`, `SerialExact` | that the statements of a request that nobody holds up add up to the request; exactly when the requests are serializable, replies included |
| `RateLimiter`, `ConcurrencyLimit` | per-client request windows with their lazy sweep; the slots of the concurrency limit |
| `Eligibility`, `Credentials` | the reduction of dated records to one decision, and the contract built from it |
| `MigrationRunner` | resumable, failure-atomic, lock-serialized schema migrations |
| `AuthorizationServer`, `WebLogin`, `LoginProtocol`, `LoginRuns`, `LoginOverlaps` | the authorization-code login: the provider, the web routes, and any number of browsers, clients and clocks between them (section 4.1.2 of RFC 6749, section 4.6 of RFC 7636, section 3.1.3.7 of OpenID Connect Core 1.0) |

What the code rests on, and the model therefore assumes:

- Course content, publication status included, does not change once learners enroll (`README.md:195`): it is a
  parameter of every operation.
- Module positions are unique in a course and lesson positions in a module (`api/migrations/0002_learning.up.sql:20`, `:31`).
- Enrollment ids, authorization codes, states, nonces and verifiers are never drawn twice; the S256 digest of a
  verifier determines it; sealed cookies and signed tokens are not forged; the web application is configured for the
  provider it talks to.
- All parts read one clock that does not go back. A decision and its contract read it twice, in the program and then
  in the database; what that changes is proved, but the queries of one request are taken to see one state of the
  records and one reading of the database's clock.

What the proofs found:

- The reconciler's comment says that locking the enrollment rows keeps a concurrent completion out
  (`api/internal/projection/reconcile.go:85-86`). That is so only for enrollments that have a projection row. A
  completion of an enrollment without one updates neither the row nor its status (`api/internal/store/store.go:292-311`),
  so the snapshot conflict never fires and the repair stores a count that misses the completion. `ConcurrentRepairExact`
  proves that repair works in every interleaving if and only if each enrollment has its row, or is withdrawn, or has no
  lesson left to complete.
- Every run in which nothing is reset, or nobody enrolls, is serializable, replies included, if and only if each
  enrollment has its projection row, or is withdrawn, or has no lesson left to complete. A reconcile takes effect when
  it opens its snapshot: no other request can tell a repaired database from one that is repaired later.
- With both, runs are not serializable. A reset's statement does not see an enrollment that appears while it runs; a
  reconcile in between can count both that one and one the reset goes on to delete, and then no order of the requests
  gives the replies they got (`api/internal/demoreset/reset.go:34-50`). From every database with a published course
  there is such a run. Where concurrent repair works, it is sufficient for a run to be serializable that no reset
  commits past such a newcomer; it is not necessary: when nothing has observed both enrollments the reset can be taken to have come first.
- Any interval one window long admits at most `2 * limit - 1` requests of one client, and a burst reaches that number.
- Upgrading by migrations equals a fresh installation if and only if the newer release only appended file names that
  sort after the old ones.
- Each transaction cookie is taken by one callback if and only if no callback request arrives while another holds it.
  Otherwise it can yield two sessions, from any state of the system; a code never does.
- A decision and the contract's list of credentials agree for all records if and only if the program and the database
  read the same date: a credential issued today counts for the decision and is listed as not valid when midnight falls
  between the two readings.
- A token lifetime reported as a fraction of a second gives a session that can never be read
  (`web/lib/oidc.ts:111-117`).

## Model

| member | source | states |
|---|---|---|
| Catalog.Content.ListedInOrder | api/internal/store/store.go:409-420 | the lesson list is strictly increasing in (module position, lesson position) and holds exactly the course's lessons |
| Catalog.Content.FirstExists | api/migrations/0002_learning.up.sql:15-32 | unique positions give every nonempty set of a course's lessons a first one |
| ProgressStore.Store.Enroll | api/internal/store/store.go:152-202 | unpublished courses are not found; otherwise the member has one enrollment afterwards, new or existing, with a projection row, the tables are those of the specification and the returned progress is read from them |
| ProgressStore.Store.CompleteLesson | api/internal/store/store.go:204-320 | the refusals change nothing; otherwise log, counts and status become, together or not at all, those that CompletionWrites describes, and the answer is the one CompletionAnswers and OutOfOrderExactly describe |
| ProgressStore.Store.LoadEnrollmentProgress | api/internal/store/store.go:383-443 | only the owner sees it; the answer is the stored row and status with the lesson list, whose meaning ProgressMeans and LessonsMean give |
| ProgressStore.ProgressMeans | api/internal/store/store.go:385-407 | the status and counts are shown as stored; a missing row reads as zero of as many lessons as are listed |
| LearnerPage.LessonsMean | api/internal/store/store.go:409-442 | exactly the course's lessons are listed, each pair in order of module position and then lesson position, each flagged exactly when it has an event of the enrollment |
| ProgressStore.Store.Reconcile | api/internal/projection/reconcile.go:82-152 | every report row carries the stored counts and status (zeros and missing without a row) and the tally of the log and the course, and they differ; every other enrollment is stored as its tally says; with apply all enrollments are, without it nothing changes; no constraint ever refuses |
| ProgressStore.Store.Compare | api/internal/projection/reconcile.go:100-123 | one pass checks every enrollment and lists exactly those whose stored values differ from the tally, with both |
| ProgressStore.Store.Rewrite | api/internal/projection/reconcile.go:129-151 | all listed rows are rewritten, or none when a constraint refuses one |
| ProgressStore.Store.Reset | api/internal/demoreset/reset.go:31-51 | the enrollments left are those of other members, untouched with their events and projections; the answer is the number of those gone |
| ProgressLog.CountIsDone | api/migrations/0005_progress.up.sql:5-13 | the unique key makes the row count of the log the number of completed lessons |
| ProgressLog.CountsFit | api/internal/store/store.go:275-313 | counts derived from the log always satisfy the schema; percent is 100, and status completed, exactly when every lesson of a nonempty course is done |
| ProgressMeaning.CountsMean | api/internal/projection/reconcile.go:46-80 | derived counts are the number of the enrollment's events, the number of lessons in the course's modules and the floor of their percentage (zero without lessons); the status is withdrawn as stored, completed when all of some lessons are done, active otherwise |
| ProgressMeaning.AgreeingIsCurrent | api/internal/projection/reconcile.go:62-80 | an enrollment has not drifted exactly when its row and status are that tally |
| ProgressMeaning.EnrollAnswers | api/internal/store/store.go:155-201 | absent, draft and archived courses are not found; a member with an enrollment in the course gets that one, anyone else a new one |
| ProgressMeaning.EnrollWrites | api/internal/store/store.go:174-195 | enrolling writes a new active enrollment, a projection row of zero out of the course's lessons, both or nothing |
| ProgressMeaning.CompletionAnswers | api/internal/store/store.go:213-273 | which request is not found, forbidden, refused as withdrawn, new or already done |
| ProgressMeaning.OutOfOrderExactly | api/internal/store/store.go:243-264 | a completion is out of order if and only if the course is sequential and some lesson of it with a smaller module position, or the same and a smaller lesson position, has no event of the enrollment |
| ProgressMeaning.CompletionWrites | api/internal/store/store.go:266-313 | an accepted completion adds the event under its owner unless it is there, and sets an existing projection row and the status to the tally of the log as it then is |
| ProgressInvariants.ApplyKeepsValid | api/migrations/0005_progress.up.sql:5-24 | no transaction ever violates a key or check constraint |
| ProgressInvariants.CompleteKeepsValid | api/internal/store/store.go:266-313 | no completion is ever refused by a constraint |
| ProgressInvariants.CompletionDone | api/internal/store/store.go:266-273 | an accepted completion adds one event, to its own enrollment, unless it was there; a refused one adds none |
| ProgressInvariants.CompletionAgrees | api/internal/store/store.go:275-313 | an accepted completion leaves its enrollment agreeing with the log whatever drift it had before |
| ProgressInvariants.StepAgrees | api/internal/projection/reconcile.go:46-80 | no transaction makes an enrollment disagree with its log; new ones start in agreement |
| ProgressInvariants.RepairIsExact | api/internal/projection/reconcile.go:82-152 | from any drift, missing rows included: no drift is left, the log, agreeing rows, owners, courses and withdrawals are kept, and a second repair changes nothing |
| ProgressInvariants.ApplyKeepsPrefix | api/internal/store/store.go:243-264 | completed lessons of a sequential course stay closed under "earlier" |
| ProgressRuns.RunsStayClean | api/migrations/0005_progress.up.sql:1-3 | after any run the cache and statuses agree with the log and a dry run has nothing to report |
| ProgressRuns.PercentNeverFalls | api/internal/store/store.go:279-303 | the percentage of a surviving enrollment never falls along a run |
| ProgressRuns.CompletionIsIdempotent | api/internal/store/store.go:204-205 | re-delivering an accepted completion at any later time changes nothing; it is reported as not new, or refused if withdrawn since |
| ProgressRuns.EnrollmentIsIdempotent | api/internal/store/store.go:152-153 | re-delivering an accepted enrollment at any later time returns the same enrollment and changes nothing |
| Retries.PercentNeverFallsInterleaved | api/internal/store/store.go:279-303 | the same along every interleaving |
| Retries.CompletionRetried | api/internal/store/store.go:204-205 | after a completion's commit, whatever interleaves, the same request changes nothing and is answered as not new, or refused if withdrawn since |
| Retries.EnrollmentRetried | api/internal/store/store.go:152-153 | after an enrollment's commit, whatever interleaves, the same request finds it and changes nothing |
| ProgressRuns.LogDetermines | api/internal/projection/reconcile.go:46-50 | a clean database is determined by its enrollments, withdrawals and log |
| ProgressRuns.OrderDoesNotMatter | api/internal/store/store.go:243-313 | in open courses any order and repetition of the same completions reaches the same database |
| LearnerPage.CanComplete | web/app/learn/page.tsx:55-84 | a lesson gets a button exactly when it is open and every lesson before it is complete |
| LearnerPage.ButtonIsTheOffer | web/app/learn/page.tsx:82-106 | on the lesson list the page receives, the button rule holds of a lesson exactly when it is the offer |
| LearnerPage.Buttons | web/app/learn/page.tsx:81-109 | the whole fold puts a button on the offered lesson and on no other |
| LearnerPage.SequentialFlags | api/internal/store/store.go:409-442 | a sequential course shows exactly `completed_lessons` true flags followed only by false ones |
| LearnerPage.OfferIsNext | web/app/learn/page.tsx:81-85 | an offer is an open lesson with all earlier ones done; without an offer all are done |
| LearnerPage.OfferIsAccepted | api/internal/store/store.go:222-273 | the owner's completion of the offered lesson is always accepted as new; there is no offer exactly when all lessons are counted |
| LearnerPage.OffersFinishTheCourse | web/app/learn/page.tsx:82-103 | taking the offers finishes in exactly total minus completed steps, with status completed for a nonempty course |
| Serializability.NoStatementIsRefused | api/migrations/0005_progress.up.sql:12-24 | in every interleaving counts can always be stored and no row has the key that is being inserted |
| Serializability.CompletionCommits | api/internal/store/store.go:213-319 | a completion's commit leaves the database and gives the recorded flag of the same completion run alone: what it read under the row lock still holds |
| Serializability.StepKeepsInv | api/internal/store/store.go:213-217 | every statement of every transaction keeps the schema, the locks and what the others rely on |
| ConcurrentRepair.ReconcileCommits | api/internal/projection/reconcile.go:82-98 | a reconcile that commits writes what a repair of the current log would write |
| ConcurrentRepair.StepKeepsRepairInv | api/internal/projection/reconcile.go:88-98 | an open snapshot stays true of every enrollment row not rewritten since |
| ConcurrentRepair.ChangesExplainRun | api/internal/store/store.go:155-316 | every interleaving reaches the database its committed changes reach one at a time, a reset counting as the deletion of the rows it locked |
| SerialOrder.EnrollIsServed | api/internal/store/store.go:174-201 | an enrolling commit leaves the database and gives the reply of its request served alone at that moment, if and only if it wrote, or the enrollment it found still has its row |
| SerialOrder.ResetIsServed | api/internal/demoreset/reset.go:34-50 | the same for a reset, if and only if every enrollment of its members was there when its statement began |
| SerialOrder.CommitIsServedExactly | api/internal/projection/reconcile.go:88-151 | the same for every transaction, if and only if nothing has moved under it; for a reconcile, no enrollment has appeared since its snapshot |
| SerialOrder.RefusedAlike | api/internal/store/store.go:217-263 | a completion is refused, at the statement that checks, exactly when and as the same request served alone would be |
| SoloRuns.CompletionFinishesExactly | api/internal/store/store.go:213-319 | while nobody else has locked its enrollment, a completion's statements lead to its commit if and only if the request served in one go is accepted, and then to the same database and reply |
| SoloRuns.EnrollmentFinishes | api/internal/store/store.go:155-201 | an enrollment in a published course gets to its commit, with the database and reply of the request served in one go, while nobody else is inserting the key or has locked the enrollment found |
| SoloRuns.ResetFinishes | api/internal/demoreset/reset.go:31-51 | a reset gets to its commit, with the database and reply of the request served in one go, while nobody else has locked its members' enrollments |
| SoloRuns.EveryRequestFinishes | api/internal/store/store.go:155-319 | from every database some run of statements takes any request but a withdrawal to a commit that does and answers what it does in one go, if and only if that answer is not a refusal |
| RepairCommutes.CompletionCommutes | api/internal/store/store.go:275-313 | a completion on a repaired database ends and answers as the repair of the same completion before it |
| SerialRuns.RepairIsUnobserved | api/internal/projection/reconcile.go:129-147 | no request other than a reconcile is answered differently because a repair came first, and repairing later gives the same database |
| SerialRuns.SecondFindsNothing | api/internal/projection/reconcile.go:88-98 | of two overlapping reconciles that both commit, the later finds no drift |
| SerialRuns.RunsAreSerializable | api/internal/store/store.go:155-319 | where concurrent repair works, every run is serializable in which no reset commits past an enrollment it did not see: the committed requests in some order, served one at a time, give the database and every reply given |
| SerialRuns.RefusalFits | api/internal/store/store.go:217-263 | a refused completion gets the answer that the serial run would give at that moment, and changes nothing there |
| SerialRuns.SameEntries | api/internal/store/store.go:196-201 | the serial history is a rearrangement of what was committed, with the replies given, each transaction's own in order |
| SerialExact.SeparateRunsAreSerializableExactly | api/internal/projection/reconcile.go:82-98 | all runs without resets, or without enrollments, are serializable if and only if each enrollment has its projection row, is withdrawn, or has no lesson left |
| SerialExact.AllRunsAreSerializableExactly | api/internal/demoreset/reset.go:31-50 | all runs whatever are, if and only if besides no course is published |
| SerialExact.NewcomersCanBeHarmless | api/internal/demoreset/reset.go:34-50 | from every database with a published course some run in which a reset commits past a newcomer is serializable all the same |
| ResetAnomaly.ResetsAreNotSerializable | api/internal/demoreset/reset.go:40-50 | from every database with a published course four transactions can commit whose replies no order of their requests gives, whatever database it ends in |
| ConcurrentRepair.InterleavingsStayClean | api/internal/projection/reconcile.go:46-80 | no interleaving brings drift: every committed state agrees with its log and keeps sequential courses in order |
| ConcurrentRepair.InterleavingsFromEmpty | api/migrations/0005_progress.up.sql:1-3 | so does every state reached from empty tables |
| ConcurrentRepair.AgreementLasts | api/internal/projection/reconcile.go:82-86 | after a successful repair no further interleaving brings drift back |
| RepairRace.RaceDrifts | api/internal/store/store.go:292-311 | the run in which a reconcile commits over a completion it did not see ends in drift |
| RepairRace.RepairCanFinish | api/internal/projection/reconcile.go:94-151 | from every database some run lets a reconcile commit |
| RepairRace.ConcurrentRepairExact | api/internal/projection/reconcile.go:82-152 | concurrent repair works in every interleaving, of which some do let it commit, if and only if each enrollment has its projection row, is withdrawn, or has no lesson left |
| RateLimiter.ClientRateLimiter.Admit | api/internal/httpapi/rate_limit.go:51-74 | the client's window is opened, counted or full; other windows go only when a sweep is due and they have run out; the decision and the whole table the trace theorems are about |
| RateLimiter.ClientRateLimiter.Sweep | api/internal/httpapi/rate_limit.go:55-62 | deletes exactly the windows that have run out |
| RateLimiter.SweepIsUnobservable | api/internal/httpapi/rate_limit.go:55-62 | every trace gets the decisions of a limiter that never sweeps |
| RateLimiter.ClientsAreIsolated | api/internal/httpapi/rate_limit.go:63-73 | a client's decisions are those of the trace with only its own requests |
| RateLimiter.SlidingBound | api/internal/httpapi/rate_limit.go:51-74 | any half-open interval one window long contains at most 2 * limit - 1 admitted requests of one client |
| RateLimiter.WindowBound | api/internal/httpapi/rate_limit.go:64-73 | in every trace, each window that a request opens admits at most `limit` requests of its client until it runs out |
| RateLimiter.SlidingBoundIsTight | api/internal/httpapi/rate_limit.go:64-73 | a burst attains 2 * limit - 1 |
| RateLimiter.ConformingNeverRefused | api/internal/httpapi/rate_limit.go:63-73 | a client with at most `limit` requests in every interval one window long is always admitted |
| RateLimiter.TableIsRecent | api/internal/httpapi/rate_limit.go:55-65 | after any call each entry was opened by a request less than two windows ago |
| ConcurrencyLimit.SlotsAreConserved | api/internal/httpapi/concurrency.go:13-27 | in every interleaving taken slots are the requests in flight and at most the limit; refusal happens exactly when all are taken; a return never waits |
| ConcurrencyLimit.ReleasesMatchAdmissions | api/internal/httpapi/concurrency.go:16-21 | each request takes at most one slot and gives it back exactly once, whether it returns or panics |
| ConcurrencyLimit.Limiter.Enter | api/internal/httpapi/concurrency.go:17-24 | is the arrival step of the protocol: admits exactly when fewer than `limit` requests are in flight, takes one slot then, and records which |
| ConcurrencyLimit.Limiter.Leave | api/internal/httpapi/concurrency.go:19 | is the release step, however the handler ended: it finds a value in the channel and takes it out, and exactly this request is no longer in flight |
| Eligibility.MaxDate | api/internal/store/store.go:598-609 | the latest date, and none exactly over no rows |
| Eligibility.LoadSafeguardingInputs | api/internal/store/store.go:498-596 | unknown members are refused; otherwise latest dates in effect, the active holds' sources in row order, and the earliest over roles of each role's latest; evaluating them gives eligible if and only if MayTakePart holds of the rows: no hold in place, and an approved check, a training and a credential for each coach or referee role that are in effect and not past their midnight |
| Eligibility.EligibleExactly | api/internal/safeguarding/eligibility.go:59-102 | loaded at one instant or at two, the decision is eligible if and only if the rows' own fields say so, and suspended if and only if some hold of the member is placed and not lifted |
| Eligibility.SourcesAreInOrder | api/internal/store/store.go:531-549 | the sources reported are those of the member's holds in place, in the order of the rows |
| Eligibility.EvaluateInOrder | api/internal/safeguarding/eligibility.go:67-102 | which failure is reported when there are several |
| Eligibility.ReductionIsExact | api/internal/safeguarding/eligibility.go:59-102 | the decision on the reduced dates, with its reason, is the one that the rule calls for, a rule on member, status, dates and roles of the rows themselves, for any grace period |
| Eligibility.RolesReduced | api/internal/store/store.go:551-593 | the weakest link is current exactly when every coach or referee role has a credential in effect and unexpired |
| Eligibility.RowOrderDoesNotMatter | api/internal/store/store.go:518-593 | the order and repetition of rows do not change the decision |
| Eligibility.LapsesExactly | api/internal/safeguarding/eligibility.go:50-65 | for fixed inputs eligibility lapses exactly at the midnight after the earliest expiry and never returns |
| Eligibility.StaysEligible | api/internal/store/store.go:474-496 | an eligible member stays eligible until then while future-dated records come into effect, absent a new hold |
| Eligibility.Earliest | api/internal/store/store.go:487-496 | the earliest of the dates present |
| Eligibility.ListCompliance | api/internal/store/store.go:445-485 | one entry per member, each with the verdict of the rule on the rows and the earliest date it turns on; eligible if and only if MayTakePart holds of the rows |
| Credentials.LoadMemberCredentials | api/internal/store/store.go:611-652 | finds the subject or nothing; the same inputs as the eligibility route; each of the member's credential rows as often as it occurs, by role, latest expiry, latest issue |
| Credentials.Build | api/internal/credentials/credentials.go:94-138 | subject, roles and instant are the record's; each fact has its own date and is valid exactly until the midnight after it; each entry has its own row's role, type and dates; the holds are the sources in order |
| Credentials.ContractAgrees | api/internal/credentials/credentials.go:94-138 | at one instant, status is eligible exactly when no hold is listed, both facts are valid, and each coach or referee role has a valid credential listed |
| Credentials.TwoReadingsAgreeExactly | api/internal/credentials/credentials.go:107-118 | read by the program and later by the database, they agree for all records if and only if both readings fall on one date |
| Credentials.GetCredentials | api/internal/credentials/credentials.go:94-138 | the training's date is the latest expiry of the member's trainings in effect, the check's that of its approved checks in effect, each valid exactly before the midnight after; one entry per row of the member, in the contract's order; the holds in place in order; eligible if and only if MayTakePart holds of the rows; on one date all facts agree with the decision |
| MigrationRunner.MigrationStore.Migrate | api/internal/dbsetup/dbsetup.go:31-79 | the files whose names the ledger lacks are applied, recorded and reported in order up to the first that fails, and the run succeeds exactly when none does |
| MigrationRunner.MigrationStore.ApplyOne | api/internal/dbsetup/dbsetup.go:81-99 | success adds script and name at the end; failure leaves no trace of the file |
| MigrationRunner.RunIsExact | api/internal/dbsetup/dbsetup.go:50-78 | the same from any database, whatever its ledger holds |
| MigrationRunner.RunExtendsPrefix | api/internal/dbsetup/dbsetup.go:50-78 | a run resumes from any prefix, extends it, reports exactly what it added and reaches the end exactly when it succeeds |
| MigrationRunner.RetryConverges | api/internal/dbsetup/dbsetup.go:20-23 | after failures anywhere a successful retry leaves what one clean run leaves |
| MigrationRunner.UpgradeConvergesExactly | api/internal/dbsetup/dbsetup.go:50-65 | upgrading equals a fresh installation if and only if the newer files extend the older ones in order |
| MigrationRunner.MigrationsConverge | api/internal/dbsetup/dbsetup.go:31-41 | in every interleaving of old and new instances that may crash anywhere the ledger is a prefix, the schema is its scripts once each in order, one instance works at a time, and success means all its files are installed |
| MigrationRunner.InstalledStays | api/internal/dbsetup/dbsetup.go:68-76 | nothing installed is ever lost or reordered |
| MigrationRunner.EachFileOnce | api/internal/dbsetup/dbsetup.go:20-29 | in every interleaving the lists that instances report share out the ledger: each file was run by exactly one instance, once |
| MigrationRunner.InstancesRunMigrate | api/internal/dbsetup/dbsetup.go:31-79 | from lock to unlock each instance does what Migrate does alone on the database it found, without failures if it succeeds |
| MigrationRunner.InstanceFinishes | api/internal/dbsetup/dbsetup.go:31-79 | an instance that finds the lock free and then meets nobody does exactly what Migrate does, whichever transactions fail, and frees the lock |
| AuthorizationServer.Provider.Authorize | api/cmd/oidcfixture/main.go:164-226 | a code is issued exactly for well-formed requests of the two known identities, bound to identity, challenge, nonce and redirect for two minutes, and returned with the form's state; others change nothing |
| AuthorizationServer.Provider.Token | api/cmd/oidcfixture/main.go:228-266 | any well-formed attempt uses the code up; tokens come exactly within its life for a verifier that meets its challenge: an access token with the API's audience and no nonce, an identity token with the client's and the nonce, both for an hour |
| WebLogin.Login | web/app/api/auth/login/route.ts:6-42 | the stored transaction holds state, nonce, verifier and return path for ten minutes; the request asks for the openid scope and the API's audience with that state and nonce and the verifier's S256 digest; nothing is stored when discovery fails |
| WebLogin.CookieJar.TakeTransaction | web/lib/session.ts:89-95 | the cookie is removed whether or not it is still good |
| WebLogin.CallbackThenRead | web/lib/session.ts:73-79 | what a successful callback stored is read, exactly until an hour after the second in which it was verified |
| WebLogin.Callback | web/app/api/auth/callback/route.ts:6-46 | signs in if and only if the unexpired transaction has the state, the code is redeemable with its verifier, and the identity token is for its nonce and still good; the session then holds the access token for the API and its subject for an hour; cookies and outstanding codes on every path |
| WebLogin.SessionExactly | web/lib/oidc.ts:109-134 | for any answer of a token endpoint: a session if and only if it is complete, of bearer type in any case, and its identity token has issuer, audience, nonce, a subject and time left; it holds the access token, for the whole seconds reported up to an hour, or fifteen minutes |
| WebLogin.SessionSpan | web/lib/oidc.ts:109-117 | no session outlives an hour; it is readable at once exactly when the reported lifetime is not a fraction of a second |
| LoginProtocol.StepKeepsInv | api/cmd/oidcfixture/main.go:213-243 | every step of any browser, client or clock keeps the invariant that ties codes, cookies and sessions to what was posted and drawn, and rewrites no record |
| LoginProtocol.AnyoneMayPost | api/cmd/oidcfixture/main.go:164-226 | any well-formed authorization request, from whatever browser, gets a code bound to it; no other request changes anything |
| LoginProtocol.AnyoneMayRedeem | api/cmd/oidcfixture/main.go:228-266 | any client that names a code uses it up, and redeems it only with the verifier of its challenge within its life; no cookie, callback or session changes |
| LoginRuns.SessionsAgree | web/app/api/auth/callback/route.ts:19-32 | each session carries the identity posted for its own transaction's S256 challenge and nonce, from a login in the same browser, in time order and within the ten- and two-minute lives, and the access token for the API, without a nonce, that was issued to that identity for an hour at the redemption |
| LoginRuns.OneSessionPerCode | api/cmd/oidcfixture/main.go:234-245 | two sessions never come from one code |
| LoginRuns.OneSessionPerTransaction | web/lib/session.ts:89-95 | of two sessions of one transaction, each callback began before the other was answered |
| LoginOverlaps.OneCallbackPerTransaction | web/lib/session.ts:89-95 | each transaction is taken by one callback only if and only if no callback request arrives while another holds its transaction |
| LoginOverlaps.TwoSessionsPossible | web/app/api/auth/callback/route.ts:21-32 | from every state any browser can end up with two sessions of one transaction |
| LoginOverlaps.ReadsAreOwn | web/lib/session.ts:68-79 | a session a browser can read was set in that browser, less than an hour ago, by a callback that agrees with its login, identity and code |
| LoginRuns.SessionsStayHome | web/lib/oidc.ts:119-134 | when browsers keep their authorization requests to themselves, the identity was chosen in the browser that is signed in |
| LoginRuns.HistoryStands | web/app/api/auth/callback/route.ts:25-32 | no later step changes what a session rests on |
| LoginRuns.UndisturbedLogin | web/app/api/auth/callback/route.ts:19-32 | a login that others leave alone signs in as the identity chosen if and only if it kept the three time limits |
| LoginRuns.LoginCanSucceed | web/app/api/auth/login/route.ts:6-42 | from every reachable state any browser can sign in as any of the provider's identities |
| LoginRuns.CallbackIsItsSteps | web/app/api/auth/callback/route.ts:21-32 | the callback route run alone leaves the cookies and codes, and signs in exactly when, its steps in the protocol do |

## Left out

- HTTP routing, JSON, headers, logging, status codes and address parsing: plumbing.
- Cryptography, token encoding, provider discovery and its cache: replaced by the assumptions above; a token is
  what its signature vouches for.
- SQL text, pools, grants and connection errors; a commit is assumed to report its outcome truthfully.
- Deadlocks, and the progress of requests that others hold up: a step that must wait leaves the state as it is, and the transaction may abort.
- The key-share lock of a foreign-key check is modelled as an exclusive row lock, and a withdrawal is one statement that waits for row locks.
- Timestamps of events and projections, enrollment order and the order of reports and rosters.
- Overflow of `completed * 100` in a 32-bit integer: it needs more than twenty million lessons in a course.
- Editing content after enrollment and moving lessons between courses.
- Uuids and file names are numbers; sorting names is assumed to yield their order, with no name twice.
- The browser's own expiry of cookies (`maxAge`), logout, and the development session; the read of a cookie's seal.
- Scope merging, bearer parsing, return paths, environment checks: easy members.
- Minor-player rules, assessments and seed data: not implemented, or fixed data.
- SerialRuns.RunsAreSerializable: is about requests that commit; refused completions are covered by RefusalFits,
  and a lost or aborted transaction gets no reply.
- ProgressStore.Store.Withdraw: the repository has no withdrawal code; it stands for an operator's update.
- Credentials.Build: the display name, date formatting and JSON shape of the response are not modelled.
- Eligibility.LapsesExactly: speaks of fixed inputs; StaysEligible covers records that come into effect meanwhile.
- Eligibility.StaysEligible: is stated for zero grace days, which is what the store always uses.
- WebLogin.Login: the draw of the values and the browser's receipt of the cookie are one step of the protocol.
- RateLimiter.TableIsRecent: needs a positive window; with none every entry is swept by the next call.
