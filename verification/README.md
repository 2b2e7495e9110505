# LBRO: verified models of the core state machines

LBRO collects security events from applications, manages incidents and their
compliance duties, and notifies regulators. This project models the parts of it
that keep state or transform text, and proves what they promise for every input,
every run and every reachable state:

- the sliding-window rate limiter (`RateLimiter.dfy`);
- projects, memberships and invitations over one set of tables (`Database.dfy`,
  `Projects.dfy`, `Invitations.dfy`, `Membership.dfy`, `InvitationLifecycle.dfy`): when
  each operation succeeds and what it raises otherwise (`Outcomes.dfy`), the tables told
  from the calls (`History.dfy`), the same operations under the request wrapper
  (`Requests.dfy`), and the access functions that read them (`Access.dfy`);
- slugs and fresh names (`Text.dfy`, `Naming.dfy`);
- the Java SDK's JSON escaper and scanner (`JsonEscape.dfy`, `JsonScan.dfy`,
  `JsonRoundTrip.dfy`);
- notification delivery with its queue worker (`Notification.dfy`);
- two bounded queues: the event bus (`EventBus.dfy`) and the agent's buffer
  (`AgentBuffer.dfy`);
- login lockout (`Login.dfy`), the incident status log (`Incident.dfy`), the
  compliance dashboard against the PDF report (`Compliance.dfy`) and the retry
  loops of the five clients (`Retry.dfy`).

Each stateful service is a class whose methods have the source's branches and
loops and are proved equal to a step function on values. The theorems are about
those step functions: invariants over runs, refinement of a simpler reference,
round trips, exact conditions, and for the tables a second account of every run, told
from its successful calls.

`dafny verify dfyconfig.toml` checks everything.

## Assumptions

- Service methods are steps over one store whose flushes stick. The request
  wrapper rolls back when a handler raises (`backend/app/database.py:37-46`), also
  after a flush; it is outside the service-level claims. For tables and admins those
  carry over (`Requests.RequestsAlwaysValid`, `Requests.RequestsKeepAdmin`). What
  differs: an invitation that `accept` finds expired, or finds its user already a
  member, goes back to pending (`Requests.LateAcceptanceChangesNothing`,
  `Requests.NeverExpiredOverRequests`); and a failed login is forgotten, so the lockout
  theorems about the service (`Login.CounterIsFailures` to `Login.LockoutBound`) do not
  carry over to the endpoint: `Login.NeverLockedOverRequests` and
  `Login.RequestsKeepLockoutExactly` say exactly what does.
- Each request, login, delivery, push and drain is one atomic step. The limiter
  holds its lock without awaiting; the bus runs between awaits on one thread.
- Clocks are arguments of type `real`; runs that depend on order say that they do
  not go back. Primary keys, tokens, the keyed hash, the outcome of an email and
  the texts Java's Double.parseDouble accepts are arguments too.
- Database constraints are used where the source relies on them: unique primary
  keys, unique memberships, foreign keys.
- Character classes, lower-casing and stripping are the ASCII part of Python's.

## Where code and documentation differ

- The top-level documentation promises up to three retries through the queue
  (`README.md:195`). `send` swallows the mail error, so the handler returns and the
  message is deleted. `Notification.WorkerTriesExactly` gives the exact number of
  tries: while every email is refused there is a second one if and only if the queue
  delivers the message again after the approval (`Notification.RetriesNeedRedelivery`),
  so without redelivery there is at most one (`Notification.QueueTriesOnce`);
  `Notification.RefusedOnceAndForgotten` is such a run.
- The documentation promises a lockout after five failed logins (`README.md:303`).
  `login` flushes the counter and then raises, and the request wrapper rolls the
  flush back: `Login.NeverLockedOverRequests`, with `Login.LockoutLostOverRequests` a run
  that shows it. By `Login.RequestsKeepLockoutExactly` the endpoint answers as promised
  if and only if the lockout would turn no login of the run away.
- The documentation calls the rate limit one per address (`README.md:300`); the key
  holds the path as well (`backend/app/middleware/rate_limit.py:51-55`).
  `RateLimiter.TwoPathsExceed` is a run that breaks the documented bound, and by
  `RateLimiter.AddressBoundExactly` it holds on all runs over some paths if and only if
  none of them is exempt and their limits together do not exceed it.
- A comment says the purge keeps memory from growing
  (`backend/app/middleware/rate_limit.py:76`); it never finds anything to delete:
  `RateLimiter.PurgeDeletesNothing`.
- A comment says the slug is kept for stability
  (`backend/app/services/project_service.py:289`), but every save with a name
  computes it anew: `Membership.ResavingKeepsSlugExactly` says when it stays, and
  `Membership.ResavingMayChangeSlug` gives, for every name, a run in which it does not.
- A comment calls only 5xx responses retryable (`sdk/java/LBROClient.java:150`);
  the Java loop retries every other status too: `Retry.ClientsAgreeExactly`.
- The Java client raises on some legal answers to a delivered event, because its
  scanner does not know escapes. On an object with one string it does so if and only if
  nothing but commas and white space follows the first escaped quote in the string
  (`JsonScan.OneStringThrowsExactly`, `Retry.JavaRaisesExactly`); after any other escaped
  quote it silently cuts the value and drops the rest of the object
  (`JsonScan.EscapedQuoteDropsRest`).
- The Java SDK writes escaped strings and its scanner does not unescape:
  `JsonScan.EscapedFieldReadsBack` and `JsonScan.EscapedObjectReadsBack` say for which
  texts that shows.
- A compliance percentage of 100 does not mean that every record is met: it is rounded,
  by `Compliance.FullExactly` to 100.00 if and only if at most one record in 20000 is
  unmet, and the PDF's whole percent shows 100 already when at most 101 in 20000 are
  (`Compliance.WholeFullExactly`, for example 198 of 199).

## Model

| member | source | states |
|---|---|---|
| `RateLimiter.Limiter.Dispatch` | backend/app/middleware/rate_limit.py:39-81 | A request prunes, decides and records on its own key's deque exactly as the step function does; in the test environment nothing changes |
| `RateLimiter.Limiter.PathLimit` | backend/app/middleware/rate_limit.py:30-35 | The loop over the strict prefixes finds the limit of the first that matches, else the default |
| `RateLimiter.Limiter.PurgeStale` | backend/app/middleware/rate_limit.py:78-80 | Deletes exactly the keys whose deque is empty |
| `RateLimiter.DequeIsRecentAdmissions` | backend/app/middleware/rate_limit.py:61-73 | On any run with a nondecreasing clock the deque of a key is exactly its admissions of the last 60 s, counted from the last access |
| `RateLimiter.DecisionIsNaive` | backend/app/middleware/rate_limit.py:62-73 | A request passes if and only if a limiter that never forgets counts fewer than `limit` recent admissions |
| `RateLimiter.StepLookup` | backend/app/middleware/rate_limit.py:61-81 | A step changes no other key's deque, whether or not it purges |
| `RateLimiter.OtherKeysNeverMatter` | backend/app/middleware/rate_limit.py:61-81 | Dropping all requests of other keys leaves a key's deque as it was |
| `RateLimiter.PurgeDeletesNothing` | backend/app/middleware/rate_limit.py:76-81 | On every run no deque is empty, so the purge deletes nothing and a counted request only stores its own key's deque |
| `RateLimiter.DecisionDependsOnOwnKey` | backend/app/middleware/rate_limit.py:61-81 | Every decision depends on the requests of its own key alone |
| `RateLimiter.KeyDeterminesPath` | backend/app/middleware/rate_limit.py:51-55 | The key (address, colon, path) determines address and path, hence the limit |
| `RateLimiter.AdmissionsSpaced` | backend/app/middleware/rate_limit.py:66-73 | Any admission comes more than 60 s after the one `limit` places before it |
| `RateLimiter.AtMostLimitPerWindow` | backend/app/middleware/rate_limit.py:57-73 | Every closed 60 s interval holds at most `limit` admissions per key |
| `RateLimiter.RequestsPerMinute` | backend/app/middleware/rate_limit.py:22-35 | In figures: 10 logins or registrations, 20 refreshes, and the default elsewhere, per address and path in any 60 s |
| `RateLimiter.NeverLimitedEarly` | backend/app/middleware/rate_limit.py:66-73 | Below those figures a request is never limited |
| `RateLimiter.ExemptUntouched` | backend/app/middleware/rate_limit.py:18 | The five exempt paths are never limited and leave no trace |
| `RateLimiter.OnlyFiveExempt` | backend/app/middleware/rate_limit.py:18 | A forwarded request to any other path is remembered |
| `RateLimiter.DequeWithinLimit` | backend/app/middleware/rate_limit.py:66-73 | No deque is ever longer than its limit |
| `RateLimiter.RetryAfterIsLeast` | backend/app/middleware/rate_limit.py:66-72 | Retry-After lies between 1 and 61; with no other request on the key, retrying after that many seconds passes and one second earlier is rejected |
| `RateLimiter.PassedAreAdmitted` | backend/app/middleware/rate_limit.py:61-73 | The requests the middleware forwards at an address and path are the admissions of the reference limiter |
| `RateLimiter.AddressBound` | backend/app/middleware/rate_limit.py:51-73 | Over a set of counted paths every closed 60 s interval holds at most the sum of their limits for one address |
| `RateLimiter.AddressBoundReached` | backend/app/middleware/rate_limit.py:51-73 | For every set of paths some run reaches that sum |
| `RateLimiter.AddressBoundExactly` | backend/app/middleware/rate_limit.py:30-73 | The documented limit per address holds on all runs over some paths if and only if none is exempt and their limits together do not exceed it |
| `RateLimiter.TwoPathsExceed` | backend/app/middleware/rate_limit.py:51-73 | As many requests to one path as it allows, and one to another, all pass at one instant |
| `JsonEscape.ChainIsSubstitution` | sdk/java/LBROClient.java:217-224 | The five replacements equal one substitution per character |
| `JsonEscape.UnescapeInvertsEscape` | sdk/java/LBROClient.java:217-224 | Reading the escapes from left to right recovers every string |
| `JsonEscape.EscapeValidity` | sdk/java/LBROClient.java:217-224 | The output is a valid JSON string body if and only if the only control characters of the input are newline, return and tab |
| `JsonEscape.EscapeLength` | sdk/java/LBROClient.java:217-224 | Exactly the strings without special characters are left alone; the others get longer; no quote appears from nowhere |
| `JsonScan.IndexOf` | sdk/java/LBROClient.java:241 | String.indexOf: the first occurrence, or none at all |
| `JsonScan.ParseJsonObject` | sdk/java/LBROClient.java:227-270 | The index loops compute the scanner function, exceptions included, and end on every input |
| `JsonScan.KeyAt` | sdk/java/LBROClient.java:237-244 | Skipping to and cutting out a key |
| `JsonScan.ValueAt` | sdk/java/LBROClient.java:244-267 | Skipping to and cutting out a value |
| `JsonScan.CutQuoted` | sdk/java/LBROClient.java:248-251 | The text up to the closing quote, or the exception when there is none |
| `JsonScan.TokenEnd` | sdk/java/LBROClient.java:253-255 | An unquoted token ends at the next comma, brace or end of text |
| `JsonScan.Skip` | sdk/java/LBROClient.java:237 | Moves over the separator characters and no further |
| `JsonScan.ReadKeyText` | sdk/java/LBROClient.java:237-243 | A printed key with any white space before it is read back and leaves the text after it |
| `JsonScan.ReadValueText` | sdk/java/LBROClient.java:244-266 | A printed value with any white space around it is read back |
| `JsonScan.ScanBody` | sdk/java/LBROClient.java:236-268 | The members of a printed object are read back in order |
| `JsonScan.TrimBody` | sdk/java/LBROClient.java:230-233 | Trimming takes only the outer white space off the members |
| `JsonRoundTrip.ParseInvertsPrint` | sdk/java/LBROClient.java:227-270 | For every flat object of strings, literals, 64-bit integers and other number texts, with quote-free keys and strings and any white space between tokens, the scanner returns exactly the values printed, the last of each key |
| `JsonRoundTrip.TokenInvertsShow` | sdk/java/LBROClient.java:256-265 | A printed boolean, null, number or other bare text is read back as itself |
| `JsonRoundTrip.TokenExactly` | sdk/java/LBROClient.java:256-265 | Only the three literals are read as literals, only integers of 64 bits as such, and any other text is kept |
| `JsonRoundTrip.ParseWithoutBraces` | sdk/java/LBROClient.java:229-233 | The members alone, without braces, are read alike |
| `JsonRoundTrip.NothingWithoutQuotes` | sdk/java/LBROClient.java:227-245 | A text without quotes yields an empty map, and a lone brace the exception |
| `JsonScan.ParsePrintedMembers` | sdk/java/LBROClient.java:227-270 | Every printed flat object is read member by member, whatever its bare tokens mean |
| `JsonScan.LastDuplicateWins` | sdk/java/LBROClient.java:250 | The last of duplicate keys wins and no other key appears |
| `JsonScan.IntegerTokenRoundTrip` | sdk/java/LBROClient.java:256-261 | A printed 64-bit integer comes back as that integer |
| `JsonScan.KeysAndStringsHoldNoQuote` | sdk/java/LBROClient.java:241-251 | No key and no quoted value the scanner returns holds a quote, whatever the input |
| `JsonScan.BareTextReadsBack` | sdk/java/LBROClient.java:252-266 | Any text without comma, brace, leading quote and outer white space is read as one token |
| `JsonScan.TokenMayHoldQuote` | sdk/java/LBROClient.java:252-266 | An unquoted token keeps the quotes inside it |
| `JsonScan.OneStringRead` | sdk/java/LBROClient.java:227-270 | What the scanner makes of every legal object with one string: read whole, cut before the first escaped quote, or the exception |
| `JsonScan.OneStringThrowsExactly` | sdk/java/LBROClient.java:227-270 | It throws on one if and only if the string holds an escaped quote with nothing but commas and white space after it |
| `JsonScan.EscapedQuoteDropsRest` | sdk/java/LBROClient.java:247-251 | After any other escaped quote the value is cut and all that follows it in the object is dropped without an exception |
| `JsonScan.QuoteCommaThrows` | sdk/java/LBROClient.java:237-251 | Every legal body without quote, followed by an escaped quote and a comma, is legal and makes the scanner throw |
| `JsonScan.ParseOutcomeOnText` | sdk/java/LBROClient.java:227-270 | Whether the scanner throws depends on the text alone |
| `JsonScan.EscapedFieldReadsBack` | sdk/java/LBROClient.java:212-270 | A field written with escapeJson reads back as the given text if and only if the text needed no escaping |
| `JsonScan.EscapedObjectReadsBack` | sdk/java/LBROClient.java:212-270 | Fields with distinct keys read back as the given texts if and only if none of the texts needed escaping |
| `EventBus.Bus.PublishEvent` | backend/app/routers/events.py:360-365 | A publication offers the event to every queue of the project and to no other |
| `EventBus.Bus.Open` | backend/app/routers/events.py:368-370 | Subscribing adds one new queue at the end of the project's list |
| `EventBus.Bus.Next` | backend/app/routers/events.py:373-378 | Receiving hands out the oldest item, or nothing |
| `EventBus.Bus.Close` | backend/app/routers/events.py:379-383 | Unsubscribing removes the queue, and the key with the last one |
| `EventBus.StepValid` | backend/app/routers/events.py:360-383 | Each step keeps the bus consistent |
| `EventBus.AlwaysValid` | backend/app/routers/events.py:357-383 | In every reachable state each key maps to a non-empty list of distinct live queues of that project, every live queue is listed and none holds more than 100 items |
| `EventBus.HandlesFollowRun` | backend/app/routers/events.py:368-383 | Project and liveness of a queue follow from the run alone |
| `EventBus.DeliveryExact` | backend/app/routers/events.py:360-378 | Received then queued is exactly what was published to the project while subscribed, in order, less the events that met a queue of 100 items |
| `EventBus.NothingLostWithRoom` | backend/app/routers/events.py:362-365 | Nothing is missing if and only if no such publication met a full queue |
| `EventBus.ReceivesInOrder` | backend/app/routers/events.py:373-378 | Receiving again and again hands out everything queued, oldest first, and touches no other queue |
| `AgentBuffer.EventBuffer.PushEvent` | agent/lbro_agent.py:239-244 | A push appends, and a full buffer loses its oldest event |
| `AgentBuffer.EventBuffer.DrainBatch` | agent/lbro_agent.py:246-252 | A drain takes up to the given count, oldest first, and leaves the rest |
| `AgentBuffer.Agent.Flush` | agent/lbro_agent.py:347-354 | Unforced: one batch. Forced, with nobody pushing: the buffer ends empty and is shipped in consecutive batches |
| `AgentBuffer.ChunksFacts` | agent/lbro_agent.py:347-354 | Those batches cover the buffer in order and all but the last are full |
| `AgentBuffer.EveryEventAccounted` | agent/lbro_agent.py:235-252 | Over any interleaving each pushed event is shipped, overflowed or buffered, exactly one of them; batches and overflow keep push order; the buffer is a suffix of the pushes within capacity |
| `AgentBuffer.Conservation` | agent/lbro_agent.py:235-252 | Pushed equals shipped plus overflowed plus buffered |
| `AgentBuffer.NoOverflowWithinCapacity` | agent/lbro_agent.py:239-244 | Nothing overflows while no more events were pushed than fit |
| `Retry.LastAttempt` | agent/lbro_agent.py:373-406 | The exchange ends at the first response that is not retryable, or at the last attempt allowed |
| `Retry.SleepAfterFailure` | sdk/python/lbro_sdk.py:208-240 | The loop that sleeps after a failure (agent, Python, Node) makes exactly the attempts and waits of the reference exchange |
| `Retry.SleepBeforeAttempt` | sdk/go/lbro.go:219-241 | The loop that sleeps before an attempt (Go, Java) makes the same attempts and waits |
| `Retry.WaitsAreGeometric` | sdk/java/LBROClient.java:104-164 | At most n+1 attempts; k attempts wait delay*(2^(k-1)-1) in all; exhausted exchanges make n+1 attempts and wait delay*(2^n-1) |
| `Retry.WaitsDouble` | sdk/java/LBROClient.java:108-111 | The waits are d, 2d, 4d, ... |
| `Retry.OutageExhausts` | sdk/go/lbro.go:219-260 | While every attempt meets a network error or a status from 500 on, each client makes n+1 attempts, waits delay*(2^n-1) and gives up |
| `Retry.OutageSurvived` | sdk/python/lbro_sdk.py:208-240 | The first readable 2xx after such failures delivers the event, at the attempt it comes |
| `Retry.DeliveredExactly` | sdk/nodejs/lbro-sdk.js:197-231 | An exchange ends delivered if and only if the last response was a 2xx the client can read or, for Node, any status below 400 |
| `Retry.RejectedAtOnce` | agent/lbro_agent.py:395-399 | 401 and 422 end the exchange at once, whatever the retries left |
| `Retry.ClientsAgreeExactly` | sdk/nodejs/lbro-sdk.js:197-231 | All five clients read a response alike if and only if it is a network error, 401, 422, 5xx, or 2xx with a body the agent and Java can read; on other 2xx Go and Node succeed and another raises; on the rest Python and Go give up while the others retry or accept |
| `Retry.JavaRaisesExactly` | sdk/java/LBROClient.java:135-138 | On a 2xx with a legal one-string object the Java exchange ends with an exception if and only if only commas and white space follow the first escaped quote in the string |
| `Retry.ClientsAgreeOnOneString` | sdk/nodejs/lbro-sdk.js:197-231 | On such a response the other four clients succeed, so all five agree if and only if that is not so |
| `Retry.JavaRaisesOnLegalAnswer` | sdk/java/LBROClient.java:135-138 | A family of legal answers on which only the Java client raises |
| `Retry.ClientsBehaveAlike` | sdk/nodejs/lbro-sdk.js:197-231 | On those responses all five make the same exchange |
| `Login.UserRow.TryLogin` | backend/app/services/auth_service.py:83-116 | One login attempt on a known account: refused unheard, failed and counted, deactivated, or successful and reset |
| `Login.AuthService.Login` | backend/app/services/auth_service.py:83-116 | A login changes the row of its own address only; an unknown address fails as a wrong password does and changes nothing |
| `Login.UserRow.ResetPassword` | backend/app/routers/platform.py:509-511 | A password reset clears the counter and the lock |
| `Login.CounterIsFailures` | backend/app/services/auth_service.py:99-116 | The counter equals the failures since the last success or reset, and the lock ends one lockout after the last of them once there are enough |
| `Login.LockedExactly` | backend/app/services/auth_service.py:88-89 | A login is refused unheard if and only if that lock still runs |
| `Login.FailuresSpacedOut` | backend/app/services/auth_service.py:99-107 | From failure MAX on, consecutive failures lie at least one lockout apart |
| `Login.FailuresSlowDown` | backend/app/services/auth_service.py:99-107 | Failure MAX+j comes at least j lockouts after failure MAX |
| `Login.LockoutBound` | backend/app/services/auth_service.py:83-116 | Any half-open interval of one lockout holds at most MAX failed password checks of a series |
| `Login.NeverLockedOverRequests` | backend/app/database.py:37-46 | Under the request wrapper the counter stays 0, the lock is never set, and every login is answered as if it were the first |
| `Login.RequestsKeepLockoutExactly` | backend/app/database.py:37-46 | The endpoint answers as the service alone would if and only if no login of the run would be refused unheard, and keeps its counter and lock if and only if no failure stands |
| `Login.LockoutLostOverRequests` | backend/app/services/auth_service.py:83-116 | After as many wrong passwords as allowed the service alone refuses the right one during the lockout; the endpoint lets it in |
| `Login.AccountsIndependent` | backend/app/services/auth_service.py:83-116 | Every account is what the calls to its own address made it; no call adds or removes one |
| `Login.AnswersByAddress` | backend/app/services/auth_service.py:94-107 | An unknown address is answered as a wrong password on an untried account, a known one as if it were alone |
| `IncidentStatus.Incident.TransitionStatus` | backend/app/services/incident_service.py:200-239 | A transition in the table sets status and closed_at and logs itself; any other raises a conflict and changes nothing |
| `IncidentStatus.LogTellsTheStatus` | backend/app/services/incident_service.py:200-239 | Replaying the log gives the status; closed_at is set exactly while closed; closings exceed reopenings by one exactly while closed; new is never entered again |
| `IncidentStatus.ClosedAtIsLastClosing` | backend/app/services/incident_service.py:225-228 | While closed, closed_at is the time of the last accepted closing |
| `IncidentStatus.LogObeysTable` | backend/app/services/incident_service.py:205-220 | Every logged change is one the table allows |
| `IncidentStatus.EdgesExactly` | backend/app/services/incident_service.py:205-220 | Which status may be entered from which; any other request is a conflict and changes nothing |
| `IncidentStatus.AlwaysClosable` | backend/app/services/incident_service.py:205-213 | From every reachable state closed is at most two transitions away, and the path given is a shortest one |
| `Compliance.ComplianceService.GetDashboard` | backend/app/services/compliance_service.py:86-202 | The loops compute the dashboard of the records in scope, with percentages rounded to hundredths |
| `Compliance.ComplianceService.AddOtherRegulations` | backend/app/services/compliance_service.py:152-182 | One summary for each regulation outside the rulebook that has records |
| `Compliance.ComplianceService.MarkRecordMet` | backend/app/services/compliance_service.py:204-234 | Succeeds if and only if the record exists in scope, and changes that record only |
| `Compliance.GroupByRegulation` | backend/app/routers/reports.py:715-717 | The dictionary holds each regulation with exactly its records |
| `Compliance.ListedFacts` | backend/app/services/compliance_service.py:108-182 | Each regulation is summarised once and no record's regulation is missing |
| `Compliance.DashboardMatchesPdf` | backend/app/services/compliance_service.py:86-202 | Summaries have natural pending counts and add up to the dashboard totals and to the PDF's total, met, overdue and pending |
| `Compliance.PercentagesOk` | backend/app/services/compliance_service.py:130-202 | A percentage, of a regulation or overall, is missing exactly where there are no records, is at most 100, and shows 100.00 exactly where at most one record in 20000 is unmet |
| `Compliance.RoundedExactly` | backend/app/core/metrics.py:7-11 | A rounded number is the nearest whole one, the even one in a tie |
| `Compliance.PercentageNearest` | backend/app/core/metrics.py:7-11 | The percentage is the nearest hundredth, the even one in a tie |
| `Compliance.WholePercentNearest` | backend/app/core/metrics.py:14-18 | The printed percent is the nearest whole one to that, the even one in a tie |
| `Compliance.FullExactly` | backend/app/core/metrics.py:7-11 | The percentage shows 100.00 if and only if 20000 times the unmet records do not exceed the total; below 20000 records that means all are met |
| `Compliance.FullWithOneUnmet` | backend/app/core/metrics.py:7-11 | From 20000 records on it shows 100.00 with one record unmet |
| `Compliance.WholeFullExactly` | backend/app/core/metrics.py:14-18 | The PDF's whole percent shows 100 if and only if at most 101 records in 20000 are unmet; below 199 records that means all are met |
| `Compliance.WholeFullWithOneUnmet` | backend/app/core/metrics.py:14-18 | It shows 100 for 198 of 199 |
| `Compliance.SumsPartition` | backend/app/routers/reports.py:704-713 | Summing any distinct list that covers the regulations counts every record once |
| `Compliance.DeadlineLists` | backend/app/services/compliance_service.py:140-150 | The overdue and upcoming lists are the (at most 20) earliest deadlines of their kind, sorted, and disjoint |
| `Compliance.RulebookFirst` | backend/app/services/compliance_service.py:108-138 | The summaries start with GDPR, HIPAA and DPDPA, with or without records |
| `Compliance.ScopeExact` | backend/app/services/compliance_service.py:94-106 | One project and the list of it scope alike, an empty list shows nothing, a list shows exactly the records of its projects |
| `Compliance.MarkMetMovesOne` | backend/app/services/compliance_service.py:225-234 | Meeting a record moves it from overdue or pending to met in its regulation and changes no other count |
| `Compliance.MarkMetExactly` | backend/app/services/compliance_service.py:225-234 | Only the record of that number in scope changes, in its three columns; an empty note leaves the old one |
| `Notification.Notifications.ApproveNote` | backend/app/services/notification_service.py:191-204 | Approval of a pending notification records who and when and queues a message; anything else is refused |
| `Notification.Notifications.SendNote` | backend/app/services/notification_service.py:206-222 | A try at sending ends sent, or failed with the retry count raised; other states are refused |
| `Notification.Notifications.DispatchNote` | backend/app/routers/notifications.py:62-67 | Dispatch approves a pending notification, then sends |
| `Notification.Notifications.WorkerSend` | backend/app/workers/notification_worker.py:27-65 | The worker skips missing, settled and exhausted notifications and else sends; when it raises nothing is changed |
| `Notification.Notifications.Poll` | backend/app/workers/main.py:52-59 | Each message is handled and deleted only if its handler returned |
| `Notification.SendValid` | backend/app/services/notification_service.py:206-222 | A try at sending keeps every delivery invariant |
| `Notification.DeliveryAlwaysValid` | backend/app/services/notification_service.py:191-222 | Over any interleaving with duplicates: at most one email succeeds, retry_count counts the failures, no attempt precedes approval, approved_at <= sent_at, the worker starts only below 3 retries and at most 3 times |
| `Notification.SentIsTerminal` | backend/app/services/notification_service.py:206-214 | A sent notification never changes and is never tried again |
| `Notification.OutsideScope` | backend/app/services/notification_service.py:180-189 | Outside the caller's project scope approve, send and dispatch change nothing |
| `Notification.AnswersExactly` | backend/app/services/notification_service.py:191-222 | When approve, send and dispatch answer not found, conflict, or the row as stored |
| `Notification.ApprovalFollowsRun` | backend/app/services/notification_service.py:191-196 | On every run the approval columns are those of the first approval or dispatch in scope after the creation |
| `Notification.StepTriesExactly` | backend/app/services/notification_service.py:206-222 | Each step tries one email exactly when it should, and no other |
| `Notification.RowFollowsTries` | backend/app/services/notification_service.py:211-222 | On every run the last try on a notification decides status, sent_at and last_error |
| `Notification.TriesComeFromCalls` | backend/app/services/notification_service.py:206-208 | On every run each try by a user is a send or dispatch of that notification within the user's scope, each one by the worker a delivery of its message |
| `Notification.OnlyHandledMessagesLeave` | backend/app/workers/main.py:52-59 | A step leaves fewer copies of a message if and only if it delivers one from the queue, its handler returns and its deletion sticks |
| `Notification.QueueConservation` | backend/app/workers/main.py:52-59 | Over every run each copy ever queued is still in the queue or was taken by a delivery whose handler returned; a malformed one is never taken |
| `Notification.StrayMessages` | backend/app/workers/notification_worker.py:16-21 | A message without a notification is dropped, a malformed one left in the queue; neither touches a notification |
| `Notification.QueuedAtMostOnce` | backend/app/services/notification_service.py:191-204 | The service queues the message of a notification at most once, with its approval |
| `Notification.WorkerTriesExactly` | backend/app/workers/notification_worker.py:27-53 | A notification nobody sends by hand is tried once per returning delivery after its approval, up to the first accepted email and at most three times |
| `Notification.UpToAcceptedMeaning` | backend/app/workers/notification_worker.py:37-53 | The count used there ends at the first accepted email and is all deliveries if there is none |
| `Notification.RetriesNeedRedelivery` | backend/app/workers/notification_worker.py:44-53 | While every email is refused the tries are the smaller of three and the deliveries: a second needs a second delivery, a third a third |
| `Notification.QueueTriesOnce` | backend/app/workers/notification_worker.py:44-53 | Where each delivery takes a queued copy, the worker tries a notification at most once, and exactly once if it is delivered after approval |
| `Notification.RefusedOnceAndForgotten` | backend/app/services/notification_service.py:211-222 | A run in which one refused email leaves the notification failed, one attempt made and the queue empty |
| `Naming.SlugIsWordsJoined` | backend/app/schemas/project.py:12-18 | Before truncation a slug is the words of the lower-cased name joined by single hyphens |
| `Naming.SlugOfWords` | backend/app/schemas/project.py:12-18 | However a name spaces its words, the slug is the words in small letters joined by single hyphens |
| `Naming.PunctuationIgnored` | backend/app/schemas/project.py:12-18 | Any other ASCII character is as good as not there |
| `Naming.SlugTruncates` | backend/app/schemas/project.py:12-18 | The slug is the first 100 characters of that, or "project" where nothing is left |
| `Naming.SlugifyNormal` | backend/app/schemas/project.py:12-18 | A slug is non-empty, at most 100 characters over a-z, 0-9 and hyphen, without leading or double hyphens; only truncation leaves a final one |
| `Naming.SlugifyAgain` | backend/app/schemas/project.py:12-18 | Slugifying a slug returns it, minus a final hyphen if truncation left one |
| `Naming.CandidateInjective` | backend/app/services/project_service.py:491-502 | The candidates base, base-1, base-2, ... are distinct |
| `Naming.CandidateExactly` | backend/app/services/project_service.py:491-502 | The base comes first, then the base numbered 1, 2, 3, ... |
| `Naming.Pigeonhole` | backend/app/services/project_service.py:494-502 | k taken candidates need k taken names, so the search ends |
| `Naming.FreeFrom` | backend/app/services/project_service.py:488-502 | The search finds a free candidate with all earlier ones taken |
| `Naming.FirstFreeUnique` | backend/app/services/project_service.py:488-502 | That name is the only first free candidate |
| `Naming.FreshUsername` | backend/app/services/auth_service.py:41-53 | The username loop ends with the first free candidate |
| `Naming.UsernameBaseForm` | backend/app/services/auth_service.py:43-44 | The base has 1 to 20 word characters |
| `Naming.UsernameOfLocal` | backend/app/services/auth_service.py:43-44 | A local part of letters, digits and underscores is the base, cut after 20; an empty one gives "user" |
| `Naming.UsernameIgnores` | backend/app/services/auth_service.py:43-44 | Any other character of the local part is as good as not there |
| `Projects.ProjectService.CreateProject` | backend/app/services/project_service.py:30-56 | A project gets the first free slug and its owner an admin row |
| `Projects.ProjectService.UniqueSlug` | backend/app/services/project_service.py:488-502 | The loop ends with the first candidate no other project holds |
| `Projects.ProjectService.AddProjectMember` | backend/app/services/project_service.py:148-173 | Adds the row, or reports the conflict or the broken reference |
| `Projects.ProjectService.CountProjectAdmins` | backend/app/services/project_service.py:200-215 | The loop counts the distinct users who are owner or admin member; an unknown project is not found |
| `Projects.ProjectService.CountOtherAdmins` | backend/app/services/project_service.py:206-215 | The loop counts the admin rows that are not the owner's |
| `Projects.ProjectService.UpdateRole` | backend/app/services/project_service.py:217-245 | Changes one role, or refuses with the source's error |
| `Projects.ProjectService.RemoveProjectMember` | backend/app/services/project_service.py:247-268 | Removes one row, or refuses with the source's error |
| `Projects.ProjectService.PlatformAssignAdmin` | backend/app/routers/platform.py:334-355 | Makes the user an admin, through the existing row or a new one |
| `Projects.ProjectService.UpdateProject` | backend/app/services/project_service.py:284-304 | Re-slugs on every given name, itself excluded; other fields stay |
| `Projects.CountIsDistinctUsers` | backend/app/services/project_service.py:200-215 | Owner plus other admin rows equals the number of effective admins |
| `Projects.DemotionRefusedExactly` | backend/app/services/project_service.py:229-241 | Demotion is refused if and only if the member is the owner or the only effective admin |
| `Projects.RemovalRefusedExactly` | backend/app/services/project_service.py:256-265 | Removal is refused if and only if the member is the owner or the only effective admin |
| `Projects.SlugKeptExactly` | backend/app/services/project_service.py:287-291 | Saving under a name keeps the slug if and only if it is a candidate of that name and all earlier ones belong to others |
| `Outcomes.CreateExactly` | backend/app/services/project_service.py:30-56 | When a creation succeeds, and that its slug is the first candidate nobody holds |
| `Outcomes.AddMemberExactly` | backend/app/services/project_service.py:148-173 | When adding a member succeeds, conflicts, or breaks a reference |
| `Outcomes.UpdateRoleExactly` | backend/app/services/project_service.py:217-245 | When a role change succeeds, conflicts, is not found, or is refused for the owner or only admin |
| `Outcomes.RemoveExactly` | backend/app/services/project_service.py:247-268 | When a removal succeeds or is refused; after it the user is no member and every other row is as it was |
| `Outcomes.AssignAdminExactly` | backend/app/routers/platform.py:334-355 | When assigning an admin succeeds, is not found, or breaks a reference |
| `Outcomes.RenameExactly` | backend/app/services/project_service.py:284-304 | A saved name brings the first candidate no other project holds; a save without one leaves the slug |
| `Membership.CreateKeeps` | backend/app/services/project_service.py:30-56 | Creating a project keeps every table invariant |
| `Membership.UpdateRoleKeeps` | backend/app/services/project_service.py:217-245 | Changing a role keeps every table invariant |
| `Membership.RemoveKeeps` | backend/app/services/project_service.py:247-268 | Removing a member keeps every table invariant |
| `Membership.UpdateProjectKeeps` | backend/app/services/project_service.py:284-304 | Renaming keeps slugs distinct, the project itself excluded |
| `Membership.AcceptFoundKeeps` | backend/app/services/invitation_service.py:154-199 | Accepting keeps memberships unique and one invitation pending |
| `Membership.DeleteUserKeeps` | backend/app/models/project_member.py:24-36 | The foreign-key cascades of a user deletion keep the invariants |
| `Membership.StepKeeps` | backend/app/services/project_service.py:30-304 | Every operation keeps every invariant |
| `Membership.AlwaysValid` | backend/app/services/project_service.py:30-304 | In every reachable state memberships are unique, owners are admin members, slugs are distinct, one invitation is pending per project and address, acceptances precede expiry |
| `Membership.StepKeepsAdmin` | backend/app/services/project_service.py:200-268 | A step keeps an effective admin of a project if and only if it deletes neither the project nor the user who is its only one |
| `Membership.AdminNeverLost` | backend/app/services/project_service.py:200-268 | A project with an effective admin, owned or not, keeps one through every run that deletes neither it nor, at the time, its only effective admin |
| `Membership.AdminKeptExactly` | backend/app/services/project_service.py:200-268 | It has one at every point of a run if and only if no step is such a deletion |
| `Membership.DeleteUserKeepsAdminExactly` | backend/app/models/project_member.py:24-36 | Deleting a user leaves the project an effective admin if and only if the user was not the only one |
| `Membership.CreatedWithAdmin` | backend/app/services/project_service.py:47-54 | A new project has an effective admin |
| `History.MembershipsFollowRun` | backend/app/services/project_service.py:30-268 | On every run who is in a project, with which role and invited by whom is what the last successful operation on the pair made it |
| `History.ProjectsFollowRun` | backend/app/services/project_service.py:30-304 | On every run the projects with their name, status, owner and creation time are told by the successful operations |
| `History.InvitationsFollowRun` | backend/app/services/invitation_service.py:36-206 | On every run with distinct tokens and hashes each invitation is what the calls on it made it |
| `History.UsersFollowRun` | backend/app/models/project_member.py:24-36 | No project or invitation operation changes a user |
| `Membership.SlugsComeFromNames` | backend/app/services/project_service.py:287-291 | In every reachable state each slug is a candidate for its project's name |
| `Membership.ResavingKeepsSlugExactly` | backend/app/services/project_service.py:287-291 | Saving a project under its own name keeps its slug if and only if all earlier candidates belong to others; else it falls back to an earlier one |
| `Membership.ResavingMayChangeSlug` | backend/app/services/project_service.py:287-291 | For every name, a run that leaves a project whose slug changes although its name does not |
| `Invitations.InvitationService.CreateInvitation` | backend/app/services/invitation_service.py:36-84 | Stores a pending invitation for the normalised address with the hash of the returned token, or refuses |
| `Invitations.InvitationService.CancelInvitation` | backend/app/services/invitation_service.py:113-118 | Cancels a pending invitation of the project |
| `Invitations.InvitationService.DeclineInvitation` | backend/app/services/invitation_service.py:120-126 | The invitee cancels a pending invitation |
| `Invitations.InvitationService.AcceptInvitation` | backend/app/services/invitation_service.py:128-136 | Accepts for the invitee, with all refusals of the source |
| `Invitations.InvitationService.AcceptInvitationByToken` | backend/app/services/invitation_service.py:138-152 | The search loop accepts a pending invitation the token verifies against, or finds none |
| `Invitations.InvitationService.AcceptPending` | backend/app/services/invitation_service.py:154-199 | Expiry and existing membership update the row before the error; else row and membership are added |
| `Invitations.NormalizeTwice` | backend/app/core/invitation_tokens.py:11-12 | Normalising an address is idempotent |
| `Invitations.NormalizeExactly` | backend/app/core/invitation_tokens.py:11-12 | A normalised address is the address in small letters without outer white space |
| `Outcomes.InviteExactly` | backend/app/services/invitation_service.py:36-84 | When an invitation is stored, conflicts, is not found, or breaks a reference |
| `Outcomes.CancelExactly` | backend/app/services/invitation_service.py:113-118 | When a cancellation succeeds, is not found, or conflicts |
| `Outcomes.DeclineExactly` | backend/app/services/invitation_service.py:120-126 | When a decline succeeds, and its three refusals |
| `Outcomes.AcceptExactly` | backend/app/services/invitation_service.py:154-199 | An invitee's acceptance succeeds if and only if the invitation is pending and in time, the token fits or is absent, the project is active and the user not in it; each refusal has its condition |
| `Outcomes.AcceptForInviteeOnly` | backend/app/services/invitation_service.py:128-136 | Anyone else is refused and nothing changes |
| `Outcomes.TokenFindsExactly` | backend/app/services/invitation_service.py:138-152 | A token finds the pending invitations that store its hash, and nothing else |
| `Invitations.AcceptByTokenIsAccept` | backend/app/services/invitation_service.py:138-152 | By token equals by identifier on the issuing invitation while it is pending; afterwards one reports not found, the other a conflict |
| `InvitationLifecycle.StepOrigins` | backend/app/services/invitation_service.py:36-84 | Rows come from earlier rows with the same offer, or from an invitation |
| `InvitationLifecycle.SettledIsFinal` | backend/app/services/invitation_service.py:113-199 | Accepted, cancelled and expired never change |
| `InvitationLifecycle.AcceptanceIsProper` | backend/app/services/invitation_service.py:154-206 | Acceptance happens before expiry, by a user with the invited address, on an active project, and that user is then a member |
| `InvitationLifecycle.RowsComeFromInvites` | backend/app/core/invitation_tokens.py:15-28 | Stored addresses are normalised and stored hashes are those of issued tokens |
| `InvitationLifecycle.HashesUnique` | backend/app/core/invitation_tokens.py:15-28 | Where the issued tokens are distinct and no two of them share a hash, no two rows do |
| `InvitationLifecycle.TokenNamesItsInvitation` | backend/app/services/invitation_service.py:138-152 | Where also the presented token shares no hash with another, in every reachable state it acts on the invitation that issued it, and an unissued token finds nothing |
| `Requests.RequestsAlwaysValid` | backend/app/database.py:37-46 | The table invariants hold after every run of requests |
| `Requests.RequestsKeepAdmin` | backend/app/database.py:37-46 | A project keeps an effective admin through every run of requests that deletes neither it nor its only one |
| `Requests.NeverExpiredOverRequests` | backend/app/services/invitation_service.py:154-199 | Under the request wrapper no invitation is ever stored as expired |
| `Requests.AcceptedWithMembership` | backend/app/services/invitation_service.py:154-199 | A request makes an invitation accepted only in time and together with a new membership row |
| `Requests.LateAcceptanceChangesNothing` | backend/app/services/invitation_service.py:154-199 | Accepting an expired invitation, or one of a project the user is in, changes nothing |
| `Requests.PendingEndsExactly` | backend/app/services/invitation_service.py:113-199 | A pending invitation ends if and only if a returning request cancels or declines it, accepts it in time, or deletes its project |
| `Requests.PendingBlocksInvite` | backend/app/services/invitation_service.py:63-71 | Until then every new invitation of its address to the project is refused, expired or not |
| `Access.GetMembership` | backend/app/core/project_access.py:38-49 | The one membership row of a pair, if there is one |
| `Access.SortNewestFirst` | backend/app/services/project_service.py:145 | Sorts the dictionary's entries newest first, each once |
| `Access.CollectRoles` | backend/app/services/project_service.py:128-143 | The two loops fill the dictionary with owned projects and then memberships |
| `Access.ListAccessible` | backend/app/services/project_service.py:114-146 | Contains a project with a role if and only if it passes the filter and that is the effective role; each once, newest first |
| `Access.AccessibleIdsExact` | backend/app/core/project_access.py:66-89 | Exactly the active projects in which the user has an effective role |
| `Access.EffectiveRoleExactly` | backend/app/core/project_access.py:52-63 | Platform admins, the owner and admin members are admins; anyone else has the role of the membership row, or none |
| `Access.UnrestrictedExactly` | backend/app/core/project_access.py:66-72 | Only the two platform roles are unrestricted |
| `Access.AccessExact` | backend/app/core/project_access.py:110-136 | Access is granted if and only if an effective role exists; 404 comes before 403 |
| `Access.RoleDownwardClosed` | backend/app/core/project_access.py:139-158 | Meeting a role implies meeting every lower one; each of admin, analyst and viewer is met exactly by the effective roles from it upwards |
| `Access.RoleAnswers` | backend/app/core/project_access.py:139-158 | The 404 and 403 of a role check, and what it grants |
| `Access.EffectiveAdminsExact` | backend/app/core/project_access.py:52-63 | The admins protected from removal are those whose effective role is admin without a platform role |

## Left out

- RateLimiter.Limiter.Dispatch: the X-RateLimit headers are not modelled; they read the deque after an await, when other requests may have run.
- Retry.Classify: delays are exact, so the retry count is taken within the width of Go's and Java's shifts; sleeping interrupted by a cancelled context or thread is not modelled.
- JsonScan.Parse: the insertion order of LinkedHashMap and non-ASCII digits in numbers are not modelled; a Java `char` is a UTF-16 unit, a Dafny one a whole character.
- The Java request builder (`appendField`, `buildSingleEventJson`): its string literals have lost their backslashes in the source.
- Naming.Slugify: letters outside ASCII, which Python lower-cases and counts as word characters.
- EventBus.Bus.Next: a cancelled wait that drops the item it was about to return.
- Queues of the event bus are named by creation order instead of being heap objects, and database rows are values in maps, so aliasing between sessions is not modelled.
- Compliance.Rounded: the floating-point error of the division before the rounding, which below 10^10 records can change the result in a tie only.
- Compliance.SummaryOf: the order of ties and groups, which SQL leaves open.
- Notification.Notifications.SendNote: the email text, SMTP, and a crash or a failed commit between sending and committing.
- Projects.ProjectService.PlatformAssignAdmin: requires unique memberships, which the table's constraint guarantees.
- Hashing, HMAC, JWT and bcrypt: a hash parameter, without collisions among the tokens of a run where that is needed, and a password check given as an input.
- API key handling, `IncidentService.update` and `_auto_contain`, which set a status outside the transition table, and `backend/app/worker/`, which refers to classes that no longer exist.
- HTTP, FastAPI, SQLAlchemy, SQS transport, file tailing, compression and PDF layout.
- The permission table, security scores, machine learning, seeding scripts and the frontend: finite tables, linear arithmetic or library calls.
