# Verified model of the secure invoice API and its severity gate

This project models, in Dafny, the three parts of the repository whose behaviour is hard to see from one
function at a time, and proves what they promise for every input and over every run:

* **The sliding-window limiter and the login throttle.** `RateLimiter.dfy` is the limiter as a class whose
  methods change the table in place, each proved against a step function. `LimiterRuns.dfy`,
  `LimiterMemory.dfy`, `LimiterEviction.dfy`, `LimiterSkew.dfy` and `RetryAfter.dfy` reason about sequences of
  lock-protected sections in lock order; `LimiterScenarios.dfy` builds runs step by step, for showing what can
  happen. The clock reading, taken outside the lock, is an argument of the section; time is real.
  `BucketKeys.dfy` has the keys and `LoginThrottle.dfy` the two tiers of `login` with logins in parallel.
  `LoginBlocks.dfy` builds login runs; `LoginBudgets.dfy` and `LoginLockout.dfy` have the exact conditions under
  which the throttle keeps its promises.
* **The owner-scoped invoice store.** `LikeSearch.dfy` holds the escaping of search terms and a LIKE matcher
  after section 8.5 of ISO/IEC 9075-2. `Invoices.dfy` is the store with its six requests, `TenantIsolation.dfy`
  the noninterference proof, `Pagination.dfy` paging and search answers, `Roles.dfy` the role administration.
* **The severity gate and its coverage check.** `SeverityGate.dfy` holds the loops of `evaluate` over mutable
  findings, `GateTheorems.dfy` what the verdict promises, `FindingParsers.dfy` the dependency parsers,
  `PackageNames.dfy` and `DepcheckInput.dfy` the name normaliser and the pin coverage check.

`Stamps.dfy`, `Text.dfy` and `Prelude.dfy` are shared helpers. `dafny verify dfyconfig.toml` checks everything.

## Reading the limiter theorems

`Log(maxKeys, rs, key)` is the naive record: every admission of the key since the table was last emptied, by a
reset or by an eviction that made no room. `Forgets` says that a request empties the table. Statements about the
record therefore also hold in runs that clear the table; the ones that need the full history say so.

A key is *accommodated* when no request uses a window shorter than the key's own, or when there are never more keys
than the table's cap. Both can be seen from the requests alone, and either keeps evictions from deleting the key while
its newest entry still counts in its own window (`LimiterRuns.AccommodatedIsUndisturbed`). Bounds on the readings are
bounds on how far a reading may fall below an earlier one in lock order: the *skew*.

A login is two sections, one per `enforce` call, each with its own reading; sections of other requests may come
between them. A run of the login model is any interleaving in which a second section belongs to one earlier first
section that was admitted.

## Where a promise holds only under a condition

The code is modelled as it is. Where something one would expect of it is not always true, the exact condition is
proved, over all runs:

* Eviction is described as dropping idle keys, but a key is judged idle by its newest entry and by the window of the
  key that arrives. `LimiterEviction.CapInvisibleIff`: with at least two keys allowed, the cap never changes an answer
  in runs that stay clear of the full clear if and only if all windows are equal and no reading is ever late. The
  default settings use one window, so they meet the first half of the condition; the second is not theirs to set.
* The clock is read outside the lock, which costs part of the window. `LimiterSkew.BoundWhileKeptIff` and
  `LimiterSkew.BoundAcrossEvictionIff` say exactly which interval lengths hold at most `limit` admissions. With window
  W and skew d, for a key that is never evicted: up to W at limit one, up to W - d from limit two on. For an
  accommodated key that may be evicted: up to W - d at limit one, up to W - 2d from limit two on.
* A client told to retry may have to wait longer than the window when its clock reading was late: up to the window and
  the skew, rounded up (`RetryAfter.WaitBounded`), and no less than that in the worst case
  (`RetryAfter.WaitBeyondWindow`).
* The login budgets hold over the full login window if and only if no other scope's window is shorter
  (`LoginBudgets.PairBudgetIff`, `LoginBudgets.AccountBudgetIff`). The settings allow each window to be set on its own;
  the defaults are equal. And they hold if and only if fewer keys than the table's cap are ever used within one window
  (`LoginBudgets.CrowdIff`): a flood of keys clears the table and with it the budgets.
* That locking an account takes checked passwords from four addresses besides the refused one holds if and only if,
  in addition, no time passes between the two sections of a login (`LoginLockout.FourOthersIff`). The number is exactly
  two with any delay of up to one window, one with delays of up to three, and none beyond
  (`LoginLockout.OthersNeededIff`).
* A comment says that the same CVE on the same package blocks once. Dependency-Check's package URL is lower-cased
  together with the version and cut at its last slash, so it can get a second key;
  `FindingParsers.DependencyCheckAgreesIff` is the condition.
* A lost report fails the build only if it is required and not tolerated; `GateTheorems.LossIsSafeIff` says exactly
  when losing a report cannot rescue a failing build, and `GateTheorems.CanReplaceIff` when one report may stand in for
  another.
* Paging is cut off by the largest accepted offset; `Pagination.PagesPartition` says exactly when.
* Tenants are isolated as long as identifiers are fresh; `TenantIsolation.OnlyCollisionsLeak` shows that this is all
  that is needed.

The conditions on the login throttle are those of its two tiers on a shared limiter: the runs that show them necessary
use whatever traffic other scopes may send, in any order. The application also sends one section of the scope `global`
before every request, with a limit of its own; where that limit is lower than the login limits it can keep a client
from producing such a run.

## Model

| member | source | states |
|---|---|---|
| RateLimiter.RateLimiter.HitKey | project1-devsecops-api/app/ratelimit.py:36-51 | One lock-protected section, popping in place: table and decision are those of the step function, including the IndexError on an empty bucket with a non-positive limit |
| RateLimiter.RateLimiter.Evict | project1-devsecops-api/app/ratelimit.py:53-59 | Deleting key by key leaves exactly the keys whose newest entry is after the cutoff, or nothing if that did not make room |
| RateLimiter.RateLimiter.ResetAll | project1-devsecops-api/app/ratelimit.py:61-63 | The table is empty afterwards |
| LimiterRuns.AccommodatedIsUndisturbed | project1-devsecops-api/app/ratelimit.py:40-59 | If no window is shorter than the key's, or there are never more keys than the cap, no eviction deletes the key while its newest entry is inside its own window |
| LimiterRuns.DequeTracksLog | project1-devsecops-api/app/ratelimit.py:36-51 | In every run with a non-decreasing clock, deque and record of a key used with one window are in order and agree on everything inside the window, through pruning, harmless evictions, clears and resets |
| LimiterRuns.DecisionIsNaive | project1-devsecops-api/app/ratelimit.py:36-51 | For an accommodated key, decision and retry time are those of a limiter that counts the record's entries in (now-W, now] |
| LimiterRuns.DequeIsLiveRecord | project1-devsecops-api/app/ratelimit.py:45-50 | For an accommodated key, after the request the deque is exactly the record filtered to the window, plus the new admission |
| LimiterRuns.HitTracks | project1-devsecops-api/app/ratelimit.py:45-50 | After the pop loop the deque is exactly the live part of the record, sorted |
| LimiterMemory.TableBounded | project1-devsecops-api/app/ratelimit.py:40-44 | In every reachable state the table holds at most max(1, max_keys) keys |
| LimiterMemory.BucketBounded | project1-devsecops-api/app/ratelimit.py:45-50 | No deque outgrows the largest limit its key was used with |
| LimiterMemory.RecordCounts | project1-devsecops-api/app/ratelimit.py:47-51 | On a run that forgets nothing, the record holds in any interval exactly as many entries as requests of the key were admitted with a reading in it |
| LimiterMemory.DequeIsSuffix | project1-devsecops-api/app/ratelimit.py:44-50 | In every run, whatever clock, windows and limits, the deque is the newest part of the record |
| LimiterMemory.UncrowdedForgetsNothing | project1-devsecops-api/app/ratelimit.py:40-59 | If no request finds as many keys in its window as the table may hold, which can be seen from the requests alone, the table is never cleared |
| LimiterMemory.Conservation | project1-devsecops-api/app/ratelimit.py:36-63 | All admissions of a key, in order, are those that expired, were evicted or were emptied, followed by those still stored: first in, first out, each in exactly one place |
| LimiterMemory.ExpiredIsOld | project1-devsecops-api/app/ratelimit.py:45-46 | Only entries outside the popping request's window expire |
| LimiterMemory.DepartureExplained | project1-devsecops-api/app/ratelimit.py:40-63 | An entry leaves only when the whole table is emptied, when another key finds the table full and this one idle by its newest entry, or when its own key pops it outside the window |
| LimiterEviction.EvictionIsTransparent | project1-devsecops-api/app/ratelimit.py:40-59 | With one window, any run that never reaches the full clear gets the same decision and retry time on every request as with no key cap |
| LimiterEviction.CapInvisibleIff | project1-devsecops-api/app/ratelimit.py:40-59 | In all runs that never reach the full clear every answer is as with no cap, if and only if all keys use one window and no reading is late |
| LimiterEviction.MixedWindowsForget | project1-devsecops-api/app/ratelimit.py:53-57 | For any two keys with different windows there is a run in which the cap turns a refusal into an admission |
| LimiterEviction.SkewForgets | project1-devsecops-api/app/ratelimit.py:53-57 | For any positive skew and any windows there is such a run as well, because eviction looks only at the newest entry |
| LimiterSkew.UnsortedTracks | project1-devsecops-api/app/ratelimit.py:37-50 | Deque and record agree beyond every cutoff used so far even when entries were appended out of order |
| LimiterSkew.SkewTolerantWindow | project1-devsecops-api/app/ratelimit.py:36-51 | If readings of a key fall at most d below an earlier one and the key is not evicted, an interval holds at most `limit` admissions when it is no longer than W at limit one, and no longer than W-d otherwise |
| LimiterSkew.SkewTolerantWindowAcrossEviction | project1-devsecops-api/app/ratelimit.py:36-59 | Across evictions of an accommodated key the same holds up to W-d at limit one and W-2d otherwise |
| LimiterSkew.BoundWhileKeptIff | project1-devsecops-api/app/ratelimit.py:36-51 | These lengths are exact: over all runs that never evict the key, every interval of a length is bounded if and only if the length is at most W at limit one, at most W-d otherwise |
| LimiterSkew.BoundAcrossEvictionIff | project1-devsecops-api/app/ratelimit.py:36-59 | And over all runs in which the key is accommodated, if and only if the length is at most W-d at limit one, at most W-2d otherwise |
| RetryAfter.RetryIsLeast | project1-devsecops-api/app/ratelimit.py:47-49 | After a refusal of an accommodated key at a constant limit, with any other traffic in between, a retry n seconds later is admitted if and only if n reaches the advertised time, which lies in 1..W |
| RetryAfter.RetryOnLog | project1-devsecops-api/app/ratelimit.py:47-49 | The advertised time is the ceiling of the wait for the oldest live entry; the lower bound of one never changes it |
| RetryAfter.RefusedWhenFull | project1-devsecops-api/app/ratelimit.py:47-48 | A refusal at a constant limit means the record holds exactly `limit` live entries |
| RetryAfter.RetryIsLeastAnyClock | project1-devsecops-api/app/ratelimit.py:45-49 | The advertised time is also the least one when readings come in any order and with any windows, as long as the key's deque is neither evicted nor emptied |
| RetryAfter.WaitBounded | project1-devsecops-api/app/ratelimit.py:49 | With readings at most d late the advertised time lies in 1..ceil(W+d) |
| RetryAfter.WaitBeyondWindow | project1-devsecops-api/app/ratelimit.py:37-49 | That bound is met for every window and skew: one late reading makes a client wait ceil(W+d) |
| RetryAfter.NoBudgetRaises | project1-devsecops-api/app/ratelimit.py:47-48 | A key only ever used with limits of zero or less raises IndexError on every request |
| RetryAfter.RaisesIff | project1-devsecops-api/app/ratelimit.py:47-48 | With an ordered clock a request of an accommodated key raises if and only if its limit is not positive and nothing recorded is in its window |
| BucketKeys.BucketKeyInjective | project1-devsecops-api/app/ratelimit.py:73-75 | Two (scope, subject) pairs share a bucket only if they are equal, for colon-free scopes and any subjects |
| BucketKeys.PairKeyInjective | project1-devsecops-api/app/routers/auth.py:51 | (address, account) pairs never share a bucket, for addresses without a bar and any account text |
| LoginThrottle.Enforce | project1-devsecops-api/app/ratelimit.py:73-76 | One section on the key of scope and subject: the answer and the new state are those of the run extended by that hit |
| LoginThrottle.EnforceLogin | project1-devsecops-api/app/routers/auth.py:45-52 | With two readings and the address lower-cased: the password is checked only if both sections were admitted, the second section runs only after the first was, a refusal names its tier and wait, and the run so extended still follows the protocol |
| LoginThrottle.PairBudget | project1-devsecops-api/app/routers/auth.py:46-55 | In every interleaving at most L logins of an (address, account) whose password is checked, then or later, begin in an interval of length W (less the skew as above), when no other scope's window is shorter or the table never runs out of room |
| LoginThrottle.AccountBudget | project1-devsecops-api/app/routers/auth.py:46-55 | Under the same condition at most 4L passwords are checked per account in such an interval, whatever addresses the logins come from |
| LoginThrottle.AccountRefusalNeedsOtherIps | project1-devsecops-api/app/routers/auth.py:49-52 | Under any skew and delay: if k budget spans cover the window, the delay and twice the skew, an account refusal implies n other addresses with a password checked inside the window, with k*(n+1) > 4 |
| LoginBudgets.PairBudgetIff | project1-devsecops-api/app/config.py:47-52 | Over all runs the pair budget holds in every full login window if and only if no other scope's window is shorter |
| LoginBudgets.AccountBudgetIff | project1-devsecops-api/app/config.py:47-52 | And so does the account budget |
| LoginBudgets.CrowdIff | project1-devsecops-api/app/ratelimit.py:53-59 | Over all runs in which at most a given number of keys is used within one window, both budgets hold if and only if that number is below the cap on keys |
| LoginLockout.FourOthersIff | project1-devsecops-api/app/routers/auth.py:49-52 | Over all runs an account refusal needs four other addresses if and only if no other scope's window is shorter and no time passes between the two sections of a login |
| LoginLockout.OthersNeededIff | project1-devsecops-api/app/routers/auth.py:49-52 | For every delay: with no shorter window elsewhere an account refusal needs n other addresses in every run if and only if n is at most four without delay, two up to one window, one up to three windows, none beyond |
| LikeSearch.EscapeIsQuote | project1-devsecops-api/app/routers/invoices.py:27-28 | The three successive replacements equal a single pass that quotes each special character |
| LikeSearch.EscapeRoundTrip | project1-devsecops-api/app/routers/invoices.py:27-28 | The escaped term has no active wildcard and no dangling escape, and unescaping gives the term back |
| LikeSearch.SearchIsExact | project1-devsecops-api/app/routers/invoices.py:70 | The search pattern matches a text if and only if the term occurs in it as a literal substring |
| LikeSearch.EscapingNeededIff | project1-devsecops-api/app/routers/invoices.py:27-28 | Without the escaping the search would be exact if and only if the term contains no backslash, percent sign or underscore |
| LikeSearch.ISearchIsExact | project1-devsecops-api/app/routers/invoices.py:70 | Under any per-character fold that fixes the special characters and maps nothing else onto them, ilike matches if and only if the characters of the term stand one after the other in the text, up to the fold |
| Invoices.InvoiceStore.GetOwned | project1-devsecops-api/app/routers/invoices.py:31-40 | Returns the caller's row or none, and counts exactly the lookups of rows that exist but belong to someone else |
| Invoices.InvoiceStore.GetInvoice | project1-devsecops-api/app/routers/invoices.py:85-87 | Read of an owned row, or 404; the denied counter grows by one exactly when the row exists and is someone else's |
| Invoices.InvoiceStore.UpdateInvoice | project1-devsecops-api/app/routers/invoices.py:90-96 | The attribute loop assigns exactly the fields that were sent; the denied counter likewise |
| Invoices.InvoiceStore.DeleteInvoice | project1-devsecops-api/app/routers/invoices.py:99-104 | Removes the owned row, or 404; the denied counter likewise |
| Invoices.DumpIsPatch | project1-devsecops-api/app/routers/invoices.py:93-94 | Assigning the dumped fields one by one equals patching the record |
| TenantIsolation.OthersUntouched | project1-devsecops-api/app/routers/invoices.py:31-104 | A request of one tenant leaves every other tenant's rows as they were, although writes are addressed by primary key alone |
| TenantIsolation.SameView | project1-devsecops-api/app/routers/invoices.py:31-104 | Stores that agree on a tenant's rows answer it alike and still agree afterwards |
| TenantIsolation.Noninterference | project1-devsecops-api/app/routers/invoices.py:3-6 | Over every interleaving, all responses to a tenant are unchanged when all other tenants' requests are deleted |
| TenantIsolation.ObservedIs | project1-devsecops-api/app/routers/invoices.py:3-6 | What isolation speaks of: a tenant's k-th response is the answer to its k-th request in the table as the whole run left it |
| TenantIsolation.PurgeIs | project1-devsecops-api/app/routers/invoices.py:3-6 | And the purged run holds exactly the tenant's own requests, each as often as the run does |
| TenantIsolation.OnlyCollisionsLeak | project1-devsecops-api/app/models.py:12-15 | Fresh identifiers are exactly what is needed: two stores that look alike to a tenant are told apart if and only if a create meets a foreign identifier in one of them |
| TenantIsolation.ForeignLooksMissing | project1-devsecops-api/app/routers/invoices.py:33-39 | Read, update and delete answer 404 if and only if the caller owns no such row, and then change nothing |
| TenantIsolation.RequestEffect | project1-devsecops-api/app/routers/invoices.py:43-104 | Reads and refused requests change nothing; a create appends exactly the given draft, and fails if and only if its identifier is taken; updates and deletes touch no other row |
| TenantIsolation.CreateThenGet | project1-devsecops-api/app/routers/invoices.py:77-87 | What was created is read back field by field |
| TenantIsolation.UpdateThenGet | project1-devsecops-api/app/routers/invoices.py:85-96 | After an update the sent fields are new and all others as before |
| TenantIsolation.DeleteThenGet | project1-devsecops-api/app/routers/invoices.py:99-104 | A deleted invoice is gone and no other is affected |
| TenantIsolation.SearchSelects | project1-devsecops-api/app/routers/invoices.py:67-73 | Search selects exactly the caller's invoices whose customer name contains the term, up to case |
| Pagination.PagesPartition | project1-devsecops-api/app/routers/invoices.py:43-55 | Paging until a short page yields the caller's invoices of the requested status, each exactly as often as the table holds it, newest first, if and only if the last offset is accepted; up to 100,000 of them always are |
| Pagination.StatusSelects | project1-devsecops-api/app/routers/invoices.py:51-53 | The status filter selects exactly the caller's rows of that status, and without a filter all of the caller's rows |
| Pagination.ListRejects | project1-devsecops-api/app/routers/invoices.py:47-48 | A listing is refused if and only if the page size is outside 1..100 or the offset outside 0..100,000 |
| Pagination.SearchRejects | project1-devsecops-api/app/routers/invoices.py:62-63 | A search is refused if and only if the page size or the length of the term is outside 1..100 |
| Pagination.SearchAnswer | project1-devsecops-api/app/routers/invoices.py:58-74 | The answer is the caller's invoices that contain the term up to case, each once for each row, newest first and cut at the limit |
| Pagination.NewestIsSorted | project1-devsecops-api/app/routers/invoices.py:54 | The listing order is newest first and a permutation |
| Roles.AdminPersists | project1-devsecops-api/app/routers/admin.py:36-37 | Once an administrator exists, one exists after every continuation of the run |
| Roles.AdminHasGrantChain | project1-devsecops-api/app/security.py:131-136 | Every administrator has an increasing chain of grants, each made by the account granted before, back to a create-admin step |
| Roles.AdminNeedsBootstrap | project1-devsecops-api/app/routers/auth.py:27-33 | A run without a create-admin step never has an administrator |
| Roles.AdminIff | project1-devsecops-api/app/routers/admin.py:31-41 | After any run an account is an administrator if and only if some step granted it the role and no later successful role change took it away |
| Roles.SetRoleExact | project1-devsecops-api/app/routers/admin.py:31-41 | A role change succeeds exactly for an active administrator, an existing target and no self-demotion, and then sets the target's role to the requested one and nothing else; otherwise nothing changes, and each refusal has its exact cause |
| Roles.RegisterExact | project1-devsecops-api/app/routers/auth.py:24-42 | Registration succeeds exactly for an address nobody has, which then exists lower-cased on an active account without rights; all other accounts are as before |
| Roles.CreateAdminExact | project1-devsecops-api/app/cli.py:24-40 | From twelve characters of password on, an existing address is promoted and nothing else about it changes, any other address gets an administrator account |
| Roles.AddressIff | project1-devsecops-api/app/routers/auth.py:29-41 | After any run the existing addresses are exactly those of successful registrations and create-admin steps, lower-cased |
| Roles.EmailsStayUnique | project1-devsecops-api/app/models.py:26 | No run gives two accounts one address, so create-admin promotes at most one |
| SeverityGate.Collect | project1-devsecops-api/scripts/security_gate.py:248-260 | The first loop collects all findings of readable reports in order, under the scanner names they count under, and the unreadable required reports that are not tolerated |
| SeverityGate.ReadReport | project1-devsecops-api/scripts/security_gate.py:251-257 | Fresh, unmarked findings; only those of the report's own parser are relabelled |
| SeverityGate.Mark | project1-devsecops-api/scripts/security_gate.py:265-280 | The second loop marks a finding if and only if it blocks and no earlier finding with its key does, and records the first matching exception |
| SeverityGate.Count | project1-devsecops-api/scripts/security_gate.py:282-285 | The table holds exactly the reporting scanners, with the number of findings per severity |
| SeverityGate.Evaluate | project1-devsecops-api/scripts/security_gate.py:240-288 | The loops compute verdict, missing list, marks, waivers, expired exceptions and counts from the reports and the policy; the rows below say what these are |
| SeverityGate.ExactlyOneMarked | project1-devsecops-api/scripts/security_gate.py:275-280 | A key is blocking if and only if some finding is marked for it, and then exactly one is, the first that blocks |
| SeverityGate.FirstWaiverIs | project1-devsecops-api/scripts/security_gate.py:267 | The recorded exception is the first of the policy that has not expired and matches |
| GateTheorems.VerdictIs | project1-devsecops-api/scripts/security_gate.py:248-288 | The build passes if and only if every unreadable report is optional or tolerated and every finding of the others has an accepted severity, is known to have no fix where that is let pass, or meets an exception for its rule at its place or any that has not expired |
| GateTheorems.BlockingKeyIs | project1-devsecops-api/scripts/security_gate.py:58-60 | A rule and place block if and only if a blocking finding has that rule and place |
| GateTheorems.MissingIs | project1-devsecops-api/scripts/security_gate.py:258-260 | The missing list names exactly the unreadable, required, untolerated reports with their errors |
| GateTheorems.ReportLabelsAre | project1-devsecops-api/scripts/security_gate.py:253-256 | A scanner and severity are counted if and only if a readable report has such a finding of a scanner shown by that name |
| GateTheorems.InReportOrder | project1-devsecops-api/scripts/security_gate.py:248-260 | Findings, counted labels and missing reports of joined report lists are those of the parts, in order |
| GateTheorems.OneReport | project1-devsecops-api/scripts/security_gate.py:250-260 | A readable report gives one finding for each entry, in order; an unreadable one at most one line in the missing list |
| GateTheorems.WaiverForgetsRule | project1-devsecops-api/scripts/security_gate.py:205-206 | Granting an exception without a place, up to and including its last day, gives the verdict of the reports without any finding of its rule |
| GateTheorems.WaiverForgetsPlace | project1-devsecops-api/scripts/security_gate.py:205-206 | With a place: the verdict of the reports without the findings of that rule at that place |
| GateTheorems.ExpiredIsNothing | project1-devsecops-api/scripts/security_gate.py:262-263 | An exception past its last day never changes the verdict, wherever it stands in the list |
| GateTheorems.OrderIndependent | project1-devsecops-api/scripts/security_gate.py:248-288 | Verdict and blocking keys do not depend on the order of reports, of findings within them, or of exceptions |
| GateTheorems.PermutationIsCovered | project1-devsecops-api/scripts/security_gate.py:248 | A permutation of the report list is one of the reorderings covered by order independence |
| GateTheorems.FailsClosed | project1-devsecops-api/scripts/security_gate.py:258-287 | If every report of one policy has in the other a report that is missing there or holds findings covering all of its own, and exceptions, dates, thresholds and tolerance are no more lenient, the verdict never turns from FAILED into PASSED |
| GateTheorems.CanReplaceIff | project1-devsecops-api/scripts/security_gate.py:248-287 | One report may stand in for another under every policy and among any other reports, without turning FAILED into PASSED, if and only if it is missing, or the first is not and each of its findings is covered by one with the same key, severity and at least the same effect |
| GateTheorems.TimeNeverForgives | project1-devsecops-api/scripts/security_gate.py:262 | A later date never turns FAILED into PASSED |
| GateTheorems.ExceptionsOnlyForgive | project1-devsecops-api/scripts/security_gate.py:262-270 | Adding exceptions never turns PASSED into FAILED |
| GateTheorems.ToleranceOnlyForgives | project1-devsecops-api/scripts/security_gate.py:258-260 | Tolerating more missing reports never turns PASSED into FAILED |
| GateTheorems.FindingsOnlyAccuse | project1-devsecops-api/scripts/security_gate.py:266-287 | More findings in any report never turn FAILED into PASSED |
| GateTheorems.LossIsSafeIff | project1-devsecops-api/scripts/security_gate.py:258-260 | Losing a report never turns FAILED into PASSED, whatever else is reported, if and only if it is required and not tolerated or holds nothing that blocks |
| FindingParsers.TrivyReportsAll | project1-devsecops-api/scripts/security_gate.py:96-127 | Every vulnerability of every result becomes a finding |
| FindingParsers.DependencyCheckReportsAll | project1-devsecops-api/scripts/security_gate.py:153-171 | Every vulnerability of every dependency becomes a finding |
| FindingParsers.DependencyCheckAgreesIff | project1-devsecops-api/scripts/security_gate.py:155-157 | A package URL gives the other scanners' key if and only if name and version have no slash and the version no upper-case letter |
| FindingParsers.FirstCveIs | project1-devsecops-api/scripts/security_gate.py:140-141 | The alias used is exactly the first one that is a CVE number |
| FindingParsers.OneVulnerabilityOneKey | project1-devsecops-api/scripts/security_gate.py:66-171 | A CVE reported by Trivy in any name case, by Grype as an advisory whose first CVE alias it is, and by Dependency-Check as a package URL gets one key, the last under the exact condition above |
| FindingParsers.ReportedThriceBlocksOnce | project1-devsecops-api/scripts/security_gate.py:248-280 | Parsed from three reports of one policy, the vulnerability is among the findings under one key, which is marked if any of the three blocks and never twice |
| FindingParsers.SeverityIgnoresCase | project1-devsecops-api/scripts/security_gate.py:40-43 | Severity names are read without regard to letter case |
| FindingParsers.SeverityIs | project1-devsecops-api/scripts/security_gate.py:29-43 | A text has a severity if and only if, blanks around it aside, it spells one of that severity's names or aliases in letters of any case; all other texts are UNKNOWN |
| FindingParsers.SeverityRoundTrip | project1-devsecops-api/scripts/security_gate.py:29-43 | Every severity is read back from its own name |
| FindingParsers.TrivyReportsExactly | project1-devsecops-api/scripts/security_gate.py:96-127 | A Trivy report gives exactly its vulnerabilities, failed misconfigurations and secrets, each with identifier, severity, place and fixability stated field by field, defaults included |
| FindingParsers.GrypeReportsExactly | project1-devsecops-api/scripts/security_gate.py:130-150 | The same for Grype: a CVE identifier is kept, another gives way to the first CVE alias if there is one, and fixable means the fix state is `fixed` |
| FindingParsers.DependencyCheckReportsExactly | project1-devsecops-api/scripts/security_gate.py:153-171 | The same for Dependency-Check: always fixable, the CVSS rating as the fallback severity, and the place from package URL, other identifier or file name |
| FindingParsers.TrivyVerdict | project1-devsecops-api/scripts/security_gate.py:96-127 | From a Trivy report alone to the verdict: only vulnerabilities may go unfixed, and any secret fails where CRITICAL does |
| FindingParsers.GrypeVerdict | project1-devsecops-api/scripts/security_gate.py:130-150 | From a Grype report alone to the verdict |
| FindingParsers.DependencyCheckVerdict | project1-devsecops-api/scripts/security_gate.py:153-171 | From a Dependency-Check report alone to the verdict, where nothing counts as unfixed |
| FindingParsers.ReportedBlocks | project1-devsecops-api/scripts/security_gate.py:266-288 | Whatever else is reported, a parsed finding of a failing severity that no exception covers and that is not let pass unfixed blocks its key and fails the build |
| FindingParsers.FixableVulnerabilityBlocks | project1-devsecops-api/scripts/security_gate.py:96-109 | So does a Trivy vulnerability whose severity is named, in any case and with blanks around, and that has a fix |
| FindingParsers.OneTrivyResult | project1-devsecops-api/scripts/security_gate.py:97-127 | One result gives its vulnerabilities, failed misconfigurations and secrets in this order, each once |
| FindingParsers.DependencyCheckInOrder | project1-devsecops-api/scripts/security_gate.py:154-171 | Each vulnerability of each dependency gives one finding, in order |
| PackageNames.NormaliseDecidesSameName | project1-devsecops-api/scripts/depcheck_input.py:30-31 | Two names have one normal form if and only if a chain of case changes and separator respellings leads from one to the other |
| PackageNames.NormaliseIdempotent | project1-devsecops-api/scripts/depcheck_input.py:30-31 | A normal form is its own normal form |
| PackageNames.NormalFormIs | project1-devsecops-api/scripts/depcheck_input.py:30-31 | The normal form is the spelling of the name in small letters with single hyphens as the only separators |
| DepcheckInput.Extract | project1-devsecops-api/scripts/depcheck_input.py:34-40 | The loops collect exactly the texts name==version of all lines that are a name, two equals signs, a version and then nothing or something no version goes on with |
| DepcheckInput.MatchPinIs | project1-devsecops-api/scripts/depcheck_input.py:27 | The pattern matches a line if and only if it is such a pin line, and then takes the whole name and the whole version |
| DepcheckInput.ResolveIs | project1-devsecops-api/scripts/depcheck_input.py:48-51 | An identifier resolves to a name and version if and only if it decodes to a PyPI package URL with an at sign, split at the first one |
| DepcheckInput.AnalysedPackages | project1-devsecops-api/scripts/depcheck_input.py:43-52 | The loops collect exactly the keys of all versioned package URLs |
| DepcheckInput.Verify | project1-devsecops-api/scripts/depcheck_input.py:55-63 | The uncovered pins, or an error if and only if some pin has no separator |
| DepcheckInput.UncoveredMembers | project1-devsecops-api/scripts/depcheck_input.py:58-63 | A pin is reported if and only if it was given and is not covered |
| DepcheckInput.UncoveredInOrder | project1-devsecops-api/scripts/depcheck_input.py:58-63 | Reported pins keep the given order |
| DepcheckInput.UncoveredOnce | project1-devsecops-api/scripts/depcheck_input.py:58-63 | And each is reported as often as it was given |
| DepcheckInput.SplitPinIs | project1-devsecops-api/scripts/depcheck_input.py:59-60 | A pin is split at its first double equals sign, and raises an error if and only if it has none |
| DepcheckInput.PinSplitsBack | project1-devsecops-api/scripts/depcheck_input.py:27-39 | An extracted pin splits back into the name and version that were matched |
| DepcheckInput.VerifyCleanIff | project1-devsecops-api/scripts/depcheck_input.py:55-63 | Extracted pins verify with nothing missing if and only if for every pin line some identifier in the report decodes to a package URL with some spelling of its name and its exact version |
| DepcheckInput.RoundTrip | project1-devsecops-api/scripts/depcheck_input.py:34-63 | A report with one percent-free package URL for each pin line, in any spelling of the name, is complete |
| DepcheckInput.MorePackagesNeverHurt | project1-devsecops-api/scripts/depcheck_input.py:43-52 | Adding packages to a report never adds a missing pin |

## Left out

- LoginThrottle.EnforceLogin: the method runs its two sections with no other in between; interleavings are the subject of the run model. Password verification, the token and the rehash of the stored hash are opaque and not modelled.
- LoginThrottle.PairBudget: this, the account budget and the lockout bound speak of runs in which the table is not emptied; `LoginBudgets.CrowdIff` says when that is. A reset, which no request performs, starts both budgets afresh.
- LoginBudgets.PairBudgetIff: the `global` section before each login is not forced, here and in the other conditions on the throttle, so that necessity is over arbitrary traffic of other scopes.
- Limiter: floating-point rounding of the clock (time is real); counters shared between replicas; metrics and the HTTP response around a refusal.
- Invoices: the database is a sequence of rows in insertion order and each request one atomic transaction; equal creation times are ordered by insertion. Authentication, request validation and the generation of identifiers and times are inputs. The audit log entry beside the denied counter is not modelled.
- LikeSearch.ISearchIsExact: case folding is per character; folds that change the length of a text are not modelled.
- Roles: concurrent role changes, deactivation of accounts (no request performs it), rate limiting of `register` and profile updates, which never touch a role.
- SeverityGate: reading files, TOML and JSON (a report is parsed or unreadable), the wording of waiver and missing-report texts, the Markdown summary and the command line. Reports without a parser entry are not modelled.
- FindingParsers: the Semgrep, Gitleaks and image-policy parsers, titles and fix versions, which take no part in the verdict; explicit JSON nulls and non-string values in identifier fields; letter case and white space outside ASCII.
- DepcheckInput.Extract: the final sort by lower-cased text, which no later step depends on; lock files are given as lines. Percent-decoding is a parameter.
- `app/ssrf.py`, `policy_gate.py`, `report.py`, `pipeline_gate.py`, `image_policy.py`, middleware headers, cryptography and deployment files: single checks on one value, extraction of fields into text, or calls into libraries that are not part of this model.
