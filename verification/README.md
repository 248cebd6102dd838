# A verified model of the FlagKit Go SDK core

The project models the parts of the SDK whose correctness depends on more than one function, and
proves what they guarantee over every input or every run. `dafny verify dfyconfig.toml` checks it all.

| files | part of the SDK |
|---|---|
| `EventLog.dfy`, `EventPersistence.dfy` | the write-ahead event log: buffer, append-only files, status records, recovery by folding the files, compaction |
| `EventSystem.dfy`, `EventQueue.dfy` | the bounded event queue that drives the log, and both together as a state machine with crashes |
| `Text.dfy`, `Canonical.dfy`, `Bootstrap.dfy` | the canonical JSON printer and the signing and verifying of bootstrap flags |
| `Json.dfy`, `JsonRoundTrip.dfy` | JSON values with a reader of their own, and the proof that what the printer writes reads back |
| `CircuitBreaker.dfy`, `HttpClient.dfy`, `Backoff.dfy` | the circuit breaker, the request loop and key rotation, retry and polling delays |
| `Cache.dfy` | the flag cache |
| `Sse.dfy`, `Streaming.dfy` | the event-stream parser and the reconnect machine |
| `Common.dfy` | a few types and functions the others share |

Objects whose methods update fields are classes with those fields. The specification of such a method
is a function of the old state (`FlushStep`, `AllowStep`, `Step`, ...). What these functions compute is
stated apart from them, by call histories, server replies, printed text read back or literal results, and
the whole-run theorems are lemmas about them too. Go maps are ranged over with a nondeterministic choice, so what is proved
holds for every iteration order. Clock readings, random jitter, server replies, context cancellation
and the outcome of each file operation are parameters.

## What the proofs found

- **Durability.** With any interleaving of concurrent flushes and recoveries and any failing file operations,
  every accepted event is in the buffer, recoverable, finished (sent or failed record written) or was lost,
  and what each step loses is given exactly (`LossExact`). A crash between operations loses only what the buffer
  alone has, with succeeding flushes fewer than `bufferSize` events each time (`LossBound`). A completed `Cleanup`
  that writes every live record loses nothing (`CompactLosesNothing`), so these are the only losses as long as no
  `Cleanup` crashes or fails to write (`LostOnlyInCrashes`). `Cleanup` removes the files before it rewrites the live
  records, so otherwise it also loses the recoverable events it has not written yet.
- **Status lines erase the event.** The comment at `event_persistence.go:461` speaks of status lines that
  only decode as updates. The lines the `Mark*` methods write decode as whole records, so they replace
  the entry: an event recovered after `MarkSending` has lost its type, data, context and timestamp
  (`MarkDecides`).
- **Sent events can come back.** `MarkSent` does not look at the buffer. A sent id is recovered after the
  next flush if and only if a live record of it was still buffered (`SentWhileBuffered`). A tracked event that is
  delivered before the persister first flushes does, without any error (`SentComesBack`).
- **A file that cannot be removed brings events back.** `Cleanup` logs the error and goes on; afterwards the ids
  that the remaining files make recoverable on their own are recovered too (`StuckFilesResurrect`,
  `CleanupSurvivors` for every point at which it can stop). Nothing else brings a finished event back
  (`GoneStep`, `UnstuckRun`), except a recovery under way that read it before it was finished
  (`FinishMakesGone`); the client recovers only at start-up, when nothing is being sent.
- **An event not sent yet comes back as it was.** Whatever happens after it was tracked, as long as no batch with
  it is marked, no crash comes before it is written and no `Cleanup` crashes or fails to write, the next start
  queues it again with its type, data, context and timestamp, if there is room (`ComesBackAsTracked`).
- **Canonical text is JSON.** It reads back as the value (`PrintReads`), its names stand in lexical order
  (`PrintedNames`), and a signed message reads back as timestamp and flags (`MessageReads`).
- **Cancelled probes can block the client for good.** A request whose context ends during a wait makes no
  `Record*` call. In a half-open period it keeps its slot until that period ends, which only the completion
  of some other request can bring about. With requests made one after another, all later ones are refused with CIRCUIT_OPEN, however much
  time passes, if and only if as many probes of the period were cancelled as there are slots
  (`BlockedIffProbesCancelled`). With requests in flight too, a breaker with slots refuses for ever if and only if
  it is half-open with none left and nothing is in flight (`NeverAdmitsIff`). With the default configuration
  five failures and one cancelled probe do it (`DefaultClientBlocked`).
- **The cache bound** fails exactly when a new key comes to a full cache whose oldest key is the empty string
  (`FitsIff`), so never without an empty key (`NonEmptyKeysFit`). While the empty string stays the oldest key
  every further new key adds one entry, without limit (`GrowsWithoutBound`), and no write ever brings the cache
  back within its bound (`StaysOver`). A `maxSize` below 1 acts as 1.
- **Stale stream data.** A blank line resets the parser only when both an event type and data are present.
  Each block between blank lines is dispatched by itself if and only if what earlier incomplete blocks left
  over neither comes in front of its data nor completes it (`BoundaryIff`, `SeparatedIff`); for a stream that ends
  with a complete block, if and only if no block has data without a type (`StaleDataLeaks`). Several data
  lines are joined without a line feed, which shows from two lines on (`LineFeedsLost`). Section 9.2.6 of the
  WHATWG HTML Living Standard does neither.
- **Reconnect delays** are converted to int64 before they are capped, so the closed form holds
  exactly when the uncapped delay fits an int64 or the conversion of one that does not yields at least the
  cap (`ClosedFormIff`). With a limit above 33 failures the default interval leaves int64 at the
  33rd (`OverflowExample`); the default limit is 3.

Strings are sequences of Unicode scalar values, that is, valid UTF-8; `sort.Strings` compares bytes,
which for valid UTF-8 is the order of code points. Escaping follows section 7 of RFC 8259 with the extra
escapes of Go's encoding/json, as of the Go 1.21 named in `go.mod` (backspace and form feed are written
as `\u0008` and `\u000c`).

## Model

| member | source | states |
|---|---|---|
| EventLog.RecoveryIsLastRecord | internal/persistence/event_persistence.go:394-486 | recovery returns exactly the ids whose last record over all files is pending or sending, as that record set to pending |
| EventLog.ReplayFinal | internal/persistence/event_persistence.go:452-483 | for any lines, merge-only updates included: the last entry fixes an id's payload, the last line naming it fixes its status |
| EventLog.ReplayFrame | internal/persistence/event_persistence.go:470-482 | lines that do not name an id do not change what is known of it |
| EventLog.ReplayMerge | internal/persistence/event_persistence.go:479-482 | lines this code writes overwrite map entries as wholes |
| EventLog.MarkDecides | internal/persistence/event_persistence.go:237-391 | a written status line decides whether its id is recoverable and erases its payload; all other ids are untouched |
| EventLog.SentWhileBuffered | internal/persistence/event_persistence.go:212-289 | after MarkSent and a flush a sent id is recovered if and only if its last buffered record is live |
| EventLog.RetriedFlush | internal/persistence/event_persistence.go:181-234 | any number of flushes failing after any prefix, then a full one, recover like one full flush |
| EventLog.FlushOutcomes | internal/persistence/event_persistence.go:181-234 | the store after each way a flush can end: the buffer is kept unless all was written and synced |
| EventLog.PersistedInOrder | internal/persistence/event_persistence.go:163-171 | of n persisted events the last n modulo bufferSize are buffered and the others in the log, in order, while flushes succeed |
| EventLog.BufferedIsRemainder | internal/persistence/event_persistence.go:163-171 | that count is the remainder of n by bufferSize |
| EventLog.CleanupCongruence | internal/persistence/event_persistence.go:489-566 | whatever is appended later, recovery over the compacted log gives the same records as over the old one; one line per live id |
| EventLog.CleanupIdempotent | internal/persistence/event_persistence.go:514-562 | a second Cleanup keeps exactly the same live records |
| EventLog.CleanupCutNeverResurrects | internal/persistence/event_persistence.go:530-562 | Cleanup stopped at any point, with any write errors but no file stuck: recovery returns only what it returned before, and once the files are gone exactly the records rewritten |
| EventLog.CleanupSurvivors | internal/persistence/event_persistence.go:530-562 | Cleanup stopped at any point with any faults: exactly which ids are recoverable, by the files left behind, the files not yet come to and the live records not written |
| EventLog.SuffixSurvivors | internal/persistence/event_persistence.go:531-535 | after removing a prefix of the files, exactly the recoverable ids that a later file names survive |
| EventLog.StuckFilesResurrect | internal/persistence/event_persistence.go:530-535 | after a completed Cleanup that could not remove some files, recovery returns exactly the ids it returned before and those the remaining files make recoverable |
| EventLog.StuckFileExample | internal/persistence/event_persistence.go:530-535 | a sent event that comes back this way |
| EventLog.LiveRoundTrip | internal/persistence/event_persistence.go:515-557 | writing the live records in any order and reading them back gives the live records |
| EventPersistence.Defaulted | internal/persistence/event_persistence.go:152-161 | a missing id, timestamp or status is filled in and nothing else changes |
| EventPersistence.EventPersistence.constructor | internal/persistence/event_persistence.go:87-119 | a new process starts with an empty buffer and a new current file after the existing ones |
| EventPersistence.EventPersistence.Persist | internal/persistence/event_persistence.go:148-171 | the whole new store; after success fewer than bufferSize events are buffered, after failure none is dropped |
| EventPersistence.EventPersistence.Flush | internal/persistence/event_persistence.go:174-178 | the whole new store for every outcome of the file operations |
| EventPersistence.EventPersistence.FlushLocked | internal/persistence/event_persistence.go:181-234 | which prefix of the buffer is written, and that the buffer is emptied only on full success |
| EventPersistence.EventPersistence.MarkSent | internal/persistence/event_persistence.go:237-289 | appends one sent line per id except the failed writes; buffer and older files unchanged |
| EventPersistence.EventPersistence.MarkSending | internal/persistence/event_persistence.go:292-340 | the same with sending lines |
| EventPersistence.EventPersistence.MarkFailed | internal/persistence/event_persistence.go:343-391 | the same with failed lines |
| EventPersistence.EventPersistence.ReadEventsFromFile | internal/persistence/event_persistence.go:445-486 | the reading loop computes the fold, for whole records, updates and undecodable lines |
| EventPersistence.EventPersistence.CollectLive | internal/persistence/event_persistence.go:430-438 | whatever the map order, the list holds each live record once and nothing else |
| EventPersistence.EventPersistence.Recover | internal/persistence/event_persistence.go:394-442 | returns each recoverable id once, as pending, and changes nothing |
| EventPersistence.EventPersistence.Cleanup | internal/persistence/event_persistence.go:489-566 | the store after any number of its file operations, in their order, whatever files cannot be removed and records cannot be written; an error exactly when it cannot open, create or sync |
| EventSystem.Durability | internal/core/events.go:153-207 | in every reachable state the accepted ids are exactly the buffered, recoverable, finished and lost ones, and no other id is in memory; unless a Cleanup crashed or failed to write, the lost ones are those only the buffer had at crashes |
| EventSystem.LossExact | internal/persistence/event_persistence.go:489-566 | the ids each step adds to the lost ones: exactly those that were buffered or recoverable and no longer are, except by a written sent or failed record |
| EventSystem.CompactLosesNothing | internal/persistence/event_persistence.go:514-562 | a completed Cleanup that creates its file and writes every live record loses nothing, whatever files it cannot remove |
| EventSystem.LostOnlyInCrashes | internal/persistence/event_persistence.go:181-234 | over any run without a crashing or failing Cleanup exactly the ids only the buffer had at its crashes are lost |
| EventSystem.LossBound | internal/persistence/event_persistence.go:163-168 | while Persist's flushes succeed these are at most bufferSize - 1 per crash |
| EventSystem.DurableStep | internal/core/events.go:315-410 | every step keeps that accounting, with any I/O errors and crashes, inside Cleanup too |
| EventSystem.BufferBound | internal/persistence/event_persistence.go:163-168 | while Persist's flushes succeed fewer than bufferSize ids are buffered, so a crash between steps loses fewer |
| EventSystem.SentComesBack | internal/core/events.go:315-363 | a run without errors that ends with an event both marked sent and recoverable, for every buffer size above 1 |
| EventSystem.FlushRecovers | internal/persistence/event_persistence.go:181-234 | a flush, complete or not, only adds the ids it wrote to what is recoverable |
| EventSystem.FinishedAreWritten | internal/core/events.go:335-362 | a delivered batch appends sent lines, another failed lines; exactly the ids with such a line are finished |
| EventSystem.ComesBackAsTracked | internal/core/events.go:153-207 | an event tracked in any reachable state, flushed, never marked and recovered after a crash is queued again as the same event, if there is room |
| EventSystem.MarkRecovers | internal/persistence/event_persistence.go:237-391 | exactly the ids with a written status line change, by the status |
| EventSystem.FinishMakesGone | internal/core/events.go:339-362 | finishing a batch makes an id gone from log, queue and batches if and only if no record of it is buffered and no recovery under way has read it |
| EventSystem.GoneStep | internal/core/events.go:270-410 | a gone id stays gone through a step if and only if the step is no Cleanup whose left-over files make it recoverable |
| EventSystem.FinishedStaysFinished | internal/core/events.go:315-410 | such an event is never queued, sent or recovered again in any later run, crashes, interrupted Cleanups and recoveries at any time included, unless a file Cleanup could not remove brings it back |
| EventSystem.UnstuckRun | internal/persistence/event_persistence.go:530-535 | that never happens in a run in which every file can be removed |
| EventSystem.DistinctRun | internal/core/events.go:270-288 | with recovery at start-up only, read and insertion being separate steps, no event is held twice in queue and batches |
| EventSystem.PrependIsReversedPrefix | internal/core/events.go:384-403 | RecoverEvents puts the first recovered events that fit, reversed, in front of the unchanged old queue |
| EventSystem.PrependExact | internal/core/events.go:384-403 | each recovered record that fits gives an event with its id and payload, at its place in front of the unchanged queue |
| EventQueue.EventQueue.constructor | internal/core/events.go:93-114 | a new queue is empty |
| EventQueue.EventQueue.Track | internal/core/events.go:153-207 | a full queue drops the event; otherwise it is persisted as pending, appended last, and a flush is requested at batch size |
| EventQueue.EventQueue.TakeBatch | internal/core/events.go:271-281 | the batch is a fresh copy of the queue, which is emptied |
| EventQueue.EventQueue.SendEvents | internal/core/events.go:315-363 | sending lines first, then sent or failed lines by the outcome, for exactly the batch's ids |
| EventQueue.EventQueue.Flush | internal/core/events.go:270-288 | empties the queue and reports exactly its events |
| EventQueue.EventQueue.RecoverEvents | internal/core/events.go:366-410 | the new queue event by event, ids and payloads those of the recovered records, for any order of these; the store is untouched, so what did not fit stays recoverable |
| EventQueue.TrackIsStep | internal/core/events.go:153-207 | the state machine's step for Track does what the method's contract says |
| EventQueue.FlushIsSteps | internal/core/events.go:270-363 | and its three steps for Flush |
| EventQueue.RecoverIsSteps | internal/core/events.go:366-410 | and its two steps for RecoverEvents |
| EventQueue.RunQueue | internal/core/events.go:153-288 | over any run the batches, read at its end, followed by the queue are the accepted events in order, each once, despite the shared array |
| Canonical.PrintInjective | security/security.go:440-535 | equal canonical text means equal values |
| Canonical.UniqueValue | security/security.go:440-535 | a printed value can be read back in one way only, whatever follows it inside an array or object |
| Canonical.UniqueItems | security/security.go:489-504 | the same for the elements of arrays |
| Canonical.UniqueMembers | security/security.go:507-535 | the same for keys and values of objects |
| Canonical.UniqueNumber | security/security.go:449-466 | the same for integers and decimal fractions |
| Canonical.UniqueBody | security/security.go:467-473 | the same for escaped strings |
| Canonical.AscendingUnique | security/security.go:513-518 | the sorted keys depend on the set of keys alone |
| Canonical.BeforeLexical | security/security.go:517 | the key order is: a proper prefix first, or the smaller character at the first difference |
| Canonical.KeysLexical | security/security.go:513-518 | keys are printed in that order |
| Canonical.CanonicalizeValue | security/security.go:440-486 | prints the same text whatever order the maps at any level are ranged over |
| Canonical.CanonicalizeArray | security/security.go:489-504 | the loop and strings.Join produce that text for arrays |
| Canonical.CanonicalizeMap | security/security.go:507-535 | collecting keys in any order, sorting and joining produce that text for objects, the key texts in lexical order |
| JsonRoundTrip.PrintReads | security/security.go:440-535 | the canonical text of every value reads back as the value, by a separate reader of the grammar in sections 2 to 7 of RFC 8259 |
| JsonRoundTrip.PrintedNames | security/security.go:507-535 | read in the order of the text, an object's members are its fields, each once, names in lexical order |
| JsonRoundTrip.EscapeShape | security/security.go:467-473 | which characters Go writes by themselves, with a short escape, or with four lower-case hexadecimal digits |
| Bootstrap.CanonicalizeObject | security/security.go:425-437 | a nil map prints as an empty one |
| Bootstrap.MessageInjective | security/security.go:583-584 | the signed message determines timestamp and flags |
| Bootstrap.MessageReads | security/security.go:583-584 | the signed message is the timestamp in decimal, a dot, and JSON that reads back as the flags |
| Bootstrap.AcceptedAges | security/security.go:559-576 | the accepted ages, from five minutes in the future to the maximum age in nanoseconds |
| Bootstrap.CreateBootstrapSignature | security/security.go:600-616 | signs the message of the flags and the current time |
| Bootstrap.VerifyBootstrapSignature | security/security.go:547-597 | accepts exactly when disabled, unsigned, or fresh and correctly signed; each refusal has its reason |
| Bootstrap.SignThenVerify | security/security.go:547-616 | creating a signature and verifying it, each with its own map order: accepted exactly while the age is within bounds, never a mismatch |
| Bootstrap.SignatureBinds | security/security.go:547-616 | for any code: a signature made for other flags or another time is accepted only within the age bounds, and only if the two messages have the same code |
| CircuitBreaker.AdmissionsConserved | internal/http/circuit_breaker.go:78-145 | in HalfOpen, admissions equal requests in progress plus successes, late completions included |
| CircuitBreaker.AdmissionBound | internal/http/circuit_breaker.go:78-125 | a half-open period admits at most HalfOpenMaxAllowed + max(SuccessThreshold - 1, 0) requests in every interleaving |
| CircuitBreaker.AdmissionBoundReached | internal/http/circuit_breaker.go:78-125 | that bound is reached for every configuration |
| CircuitBreaker.OpensAndRefuses | internal/http/circuit_breaker.go:78-145 | opens exactly when the latest completions in a row that failed reach the threshold; refuses by the time of the latest failure |
| CircuitBreaker.StateFollowsHistory | internal/http/circuit_breaker.go:109-145 | the failure counter and time are those of the call history |
| CircuitBreaker.SuccessesCounted | internal/http/circuit_breaker.go:109-125 | half-open, the successes counted are those since the switch, fewer than the threshold |
| CircuitBreaker.HalfOpenEnds | internal/http/circuit_breaker.go:78-145 | by the call history: the success that reaches the threshold and a Reset close a half-open breaker, a failure opens it, nothing else ends the period; and when it admits |
| CircuitBreaker.ClosedUntilThreshold | internal/http/circuit_breaker.go:78-145 | a closed breaker without failures stays closed and admits everything exactly until the latest failures in a row reach the threshold |
| CircuitBreaker.OtherCalls | internal/http/circuit_breaker.go:109-164 | completions while Open, and Reset from any state |
| CircuitBreaker.NeverAdmitsIff | internal/http/circuit_breaker.go:78-145 | with requests in flight, no continuation admits a request again if and only if the breaker is stuck; with a slot allowed: half-open, none left, nothing in flight |
| CircuitBreaker.CircuitBreaker.Allow | internal/http/circuit_breaker.go:78-106 | answer and whole new state |
| CircuitBreaker.CircuitBreaker.RecordSuccess | internal/http/circuit_breaker.go:109-125 | whole new state |
| CircuitBreaker.CircuitBreaker.RecordFailure | internal/http/circuit_breaker.go:128-145 | whole new state |
| CircuitBreaker.CircuitBreaker.Reset | internal/http/circuit_breaker.go:155-164 | whole new state |
| HttpClient.LastAttempt | internal/http/client.go:289-327 | the attempt that ends a request: every earlier one was retryable and its wait not cancelled |
| HttpClient.DoRequest | internal/http/client.go:409-437 | which status codes are responses, which failures are retried and which are authentication failures |
| HttpClient.HTTPClient.Request | internal/http/client.go:281-331 | outcome, attempts, waits and new breaker state; one Record call exactly unless refused or cancelled; at most MaxAttempts sends |
| HttpClient.HTTPClient.AdmittedRequest | internal/http/client.go:287-331 | the same for the attempt loop alone |
| HttpClient.HTTPClient.RotateToSecondaryKey | internal/http/client.go:190-211 | rotates exactly when there is another key, and stamps the time |
| HttpClient.HTTPClient.PostWithKeyRotation | internal/http/client.go:260-278 | outcome, new breaker and key: a second request exactly after an authentication failure that could rotate; at most 2 * MaxAttempts sends |
| HttpClient.RotatesOnce | internal/http/client.go:190-278 | over any run of Posts the key is rotated exactly once if a first request fails to authenticate and there is another key, else never, and never back |
| HttpClient.OutcomeAt | internal/http/client.go:289-437 | outcome and error code by the last attempt's reply |
| HttpClient.Ending | internal/http/client.go:289-327 | by the replies and the context alone: which requests succeed, and which end without a Record call |
| HttpClient.ClosedRequest | internal/http/client.go:281-331 | what a request does to a closed breaker, by its replies: a success clears the failures, an interrupted request changes nothing, any other counts |
| HttpClient.HalfOpenRequest | internal/http/client.go:281-331 | the same for a free half-open slot: a success counts or closes, an interrupted request keeps the slot, any other opens |
| HttpClient.OtherRequest | internal/http/client.go:282-285 | a refused request is answered with CIRCUIT_OPEN and changes nothing; one after the reset timeout starts a half-open period |
| HttpClient.ClosedCountsFailures | internal/http/client.go:281-331 | after any requests one after another a closed breaker has counted the latest ones in a row without a status below 400 |
| HttpClient.SuccessesStayClosed | internal/http/client.go:289-294 | requests that succeed or are interrupted leave a new breaker as it is |
| HttpClient.PostRecovers | internal/http/client.go:260-278 | a Post refused with 401 or 403 succeeds if the request with the other key does |
| HttpClient.RequestKeepsQuiet | internal/http/client.go:281-331 | from a quiet breaker: refused exactly while Open and too early; the slot is returned unless the request probes and a wait of it is cancelled, and only then not |
| HttpClient.SequentialRequests | internal/http/client.go:281-331 | without cancellation no slot is held between requests, so refusals happen only while Open and before the reset timeout |
| HttpClient.SlotsAreCancelledProbes | internal/http/client.go:281-331 | after any requests one after another, in HalfOpen the slots taken are the cancelled probes of the period and the successes counted its successful ones |
| HttpClient.BlockedIffProbesCancelled | internal/http/client.go:281-331 | after any requests one after another the client is blocked for good if and only if as many probes of the period were cancelled as there are slots |
| HttpClient.CancelledProbesLeak | internal/http/client.go:322-324 | n cancelled probes in a row take n slots, up to all of them |
| HttpClient.BlockedIffDead | internal/http/client.go:281-331 | with no request in flight, every later request of a client that makes them one after another is refused, at any time, if and only if the breaker is half-open with no slot left or open with none allowed |
| HttpClient.CancelledProbesBlockForever | internal/http/client.go:322-324 | after cancelled probes the client is blocked for good exactly when they are as many as the slots |
| HttpClient.CanBeBlockedIff | internal/http/client.go:281-331 | a run from a new client can block it for good exactly when it retries at all or allows no probe |
| HttpClient.DefaultClientBlocked | internal/http/circuit_breaker.go:48-56 | such a run for the default configuration |
| Backoff.DoublingTotal | internal/http/retry.go:35-46 | total waiting time of a doubling loop: at most the geometric sum and the caps, exactly the geometric sum plus jitter below the cap |
| Backoff.WithRetry | internal/http/retry.go:49-80 | stops at the first attempt that succeeds, must not be retried or is the last; without attempts returns neither value nor error |
| Backoff.PollingClosedForm | internal/core/polling.go:116-133 | k failed polls give min(Interval * m^k, MaxInterval) |
| Backoff.PollingManager.OnError | internal/core/polling.go:116-133 | whole new state |
| Backoff.PollingManager.OnSuccess | internal/core/polling.go:108-113 | whole new state |
| Backoff.PollingManager.GetNextDelay | internal/core/polling.go:184-192 | the delay is the interval plus at most the jitter |
| Cache.CacheHoldsMostRecent | internal/core/cache.go:103-136 | after any writes the cache holds exactly the most recently written distinct keys that fit, if and only if it never grew past its bound; each with its last write |
| Cache.CacheRefinesList | internal/core/cache.go:103-163 | for any keys and any scan order, the cached keys are a most-recent-first list which evicts from its end unless the empty key is there |
| Cache.CacheRefinesRecency | internal/core/cache.go:103-163 | while the cache never grows past its bound, that list is the recency list cut off at the capacity, deletes and clears included |
| Cache.FitsIff | internal/core/cache.go:103-129 | all states of a run fit if and only if no new key comes to a full cache whose oldest key is empty, by the states and by the operations alone |
| Cache.NonEmptyKeysFit | internal/core/cache.go:103-129 | without an empty key that never happens |
| Cache.EntriesAreLastWrites | internal/core/cache.go:119-124 | every cached entry is the one last written for its key |
| Cache.GrowthIff | internal/core/cache.go:245-264 | a cache that is full or over its bound grows by one exactly when a new key comes while the oldest key is empty, and never shrinks |
| Cache.GrowsWithoutBound | internal/core/cache.go:245-264 | from then on m new keys add m entries |
| Cache.StaysOver | internal/core/cache.go:103-129 | writes never make a full cache smaller |
| Cache.GrowthExample | internal/core/cache.go:103-129 | a cache for one entry that holds two |
| Cache.Cache.Set | internal/core/cache.go:103-129 | the new entries, up to the choice among equally old ones |
| Cache.SetMany | internal/core/cache.go:132-136 | a run of Set calls, one per flag; afterwards every entry is an old one or that of a flag, with its expiry |
| Cache.Cache.Get | internal/core/cache.go:56-76 | the entry's flag until it expires |
| Cache.Cache.GetStale | internal/core/cache.go:79-88 | the entry's flag, expired or not |
| Cache.Cache.Delete | internal/core/cache.go:139-151 | removes the key and tells whether it was there |
| Cache.Cache.EvictOldest | internal/core/cache.go:245-264 | removes an oldest entry, unless its key is empty, for every scan order |
| Sse.RoundTrip | internal/core/streaming.go:320-362 | any rendering of a list of messages, with padding, the type anywhere among the data lines, ignored lines and extra blank lines, is dispatched as that list |
| Sse.JoinedStreams | internal/core/streaming.go:325-361 | two streams joined at an event boundary dispatch as each in turn |
| Sse.CarriageReturns | internal/core/streaming.go:343 | lines ended by carriage return and line feed are parsed as lines ended by a line feed |
| Sse.BoundaryIff | internal/core/streaming.go:346-352 | whatever the accumulators hold, a block dispatches what it does by itself if and only if nothing left over joins its data or completes it |
| Sse.SeparatedIff | internal/core/streaming.go:320-362 | any stream is dispatched block by block if and only if every block is so separated from what earlier blocks leave over |
| Sse.StaleDataLeaks | internal/core/streaming.go:346-359 | a stream ending in a complete block is dispatched block by block if and only if no block has data but no type |
| Sse.StaleDataExample | internal/core/streaming.go:346-359 | left-over data in front of the next message's |
| Sse.StaleTypeExample | internal/core/streaming.go:346-352 | a left-over type that completes later data |
| Sse.LineFeedsLost | internal/core/streaming.go:358-359 | the joined data lacks the line feeds of the standard exactly when there are two or more data lines |
| Sse.ReadEvents | internal/core/streaming.go:320-362 | the reading loop dispatches the events of the lines read before the context ended or the stream did |
| Sse.HandleLine | internal/core/streaming.go:343-360 | what one line does to the accumulators |
| Streaming.ReachableStates | internal/core/streaming.go:146-183 | the counter is the number of failures since the last reset; Connected has none, Reconnecting fewer than the limit |
| Streaming.Actions | internal/core/streaming.go:146-529 | over any run: which handler starts a connection, falls back to polling, or schedules a retry or reconnect, and the state it leads to |
| Streaming.ConnectStarts | internal/core/streaming.go:146-156 | Connect starts a connection from every state but Connected and Connecting |
| Streaming.FallbackAtLimit | internal/core/streaming.go:476-529 | the f-th failure since a reset falls back to polling exactly from the limit on, and before it schedules a reconnect after the capped exponential delay |
| Streaming.FirstFallback | internal/core/streaming.go:484-493 | from a fresh start with failures only, the fallback comes with failure number MaxReconnectAttempts and not before |
| Streaming.ReconnectDelayClosedForm | internal/core/streaming.go:515-529 | the delay is min(base * 2^(f-1), 30 s) while the product fits an int64 |
| Streaming.ClosedFormIff | internal/core/streaming.go:515-529 | it is that exactly when the product fits or its conversion yields at least the cap |
| Streaming.OverflowExample | internal/core/streaming.go:476-529 | the delay the default interval gives at the 33rd failure in a row, for limits above that |
| Streaming.StreamingManager.Connect | internal/core/streaming.go:146-156 | whole new state and actions |
| Streaming.StreamingManager.Disconnect | internal/core/streaming.go:159-170 | whole new state |
| Streaming.StreamingManager.RetryConnection | internal/core/streaming.go:173-183 | whole new state and actions |
| Streaming.StreamingManager.HandleOpen | internal/core/streaming.go:305-317 | whole new state |
| Streaming.StreamingManager.HandleConnectionFailure | internal/core/streaming.go:476-512 | whole new state and actions |
| Streaming.StreamingManager.HandleStreamError | internal/core/streaming.go:402-473 | whole new state and actions for each error code |

## Left out

- Real files: locking, syncing, torn lines, the scanner's line limit, `Glob` errors and JSON encoding errors. Files are sequences of decoded lines in the order they are listed, the current one last.
- Event-id, session-id and file-name generation: ids are assumed fresh.
- Backing stores shared by several processes: one process at a time writes the directory.
- `maxEvents` of the persistence layer: stored by the code but never enforced.
- Start, Stop, Close, tickers and channels of the queue, the persister and the poller; replacing the persister while running (`SetPersister`).
- Cryptography: the message authentication code is any function; encrypted storage is not modelled.
- HTTP transport, headers, request signing, usage metrics and base URLs: a request attempt is an oracle.
- Floating-point rounding; integral floats outside int64; NaN and infinities; invalid UTF-8; values printed by the `default` branch of `canonicalizeValue`, the only source of printing errors.
- Int64 overflow of intervals, except in the reconnect delay.
- Decoding of stream events into flags, callbacks to the application, heartbeat and token timers; stream errors that do not decode are ignored by the code and are no step of the model.
- A reconnect timer that fires after Disconnect: handlers may come in any order, so it is a Connect step like any other.
- Canonical.CanonicalizeMap: the in-place sort of the key slice is a function returning the sorted keys, because sort.Strings is library code.
- Cache.CacheRefinesList: takes clock readings of successive writes to be strictly increasing; between equally old entries the scan order decides, as Cache.Cache.EvictOldest states.
- PII detection, error sanitizing, configuration options, logging, context handling and version comparison: plumbing or easy members.
