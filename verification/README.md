# Verification of Xolis

A Dafny model of the parts of Xolis that carry state, concurrency or an encoding, with proofs of what they
promise. `dafny verify dfyconfig.toml` checks the whole project.

| module | what it models |
|---|---|
| `Store` | the in-memory sandbox store: a class over two coupled maps, and the run of a list of calls |
| `Claims`, `Identity` | the claim objects of the Kubernetes store, the hashed names and labels, the header filter |
| `Cluster`, `ClusterRuns`, `ClusterAnswers` | the Kubernetes store as an interleaved step system: any number of calls from any number of replicas, each several cluster requests long, with controllers that update and remove claims at any step; and what each kind of call answers |
| `Sequential` | whole runs of the cluster as sequential runs of the specification the locked store also runs |
| `BothStores` | for every run of the cluster, a run of the locked store that holds and answers the same |
| `Client` | the retrying client of the smoke tool against a shared store |
| `Stream`, `StreamRuns`, `StreamHistory` | bounded command execution in the runtime, buffered and streamed; the stream in terms of what happened in the run alone |
| `Utf8`, `Utf8Text` | the replacing UTF-8 decoder, in pieces and against the encoding form |
| `Execution` | the buffered result, its agreement with the stream, and what a client of the event stream collects |
| `Response` | the streaming HTTP response driving the command stream |
| `Interactive`, `InteractiveRuns`, `InteractiveHistory` | one terminal session: three racing tasks, an output budget, exit codes, cleanup, what follows its end, and all of that in terms of what happened in the run |
| `Upload` | the chunked, limited, atomic file upload |
| `Frames`, `FrameBits`, `Sse`, `Paths`, `ShellQuote` | the WebSocket frame codec, bit by bit, the event stream encoding, the file path pipeline, shell quoting |
| `Lab`, `LabSteps` | the `service` and `benchmark` workflows under arbitrary failures, and what they do to node and pool |
| `Common`, `Domain` | shared value types, and the insert-if-absent specification both stores refine |

Concurrent components are functions `Step(state, action): Option<State>`; a run is any list of actions for which
every step is enabled, and the theorems quantify over all runs. Fields that only record history are named in the
comment on each `State`. Objects whose methods update fields (`InMemorySandboxStore`, `Connection`, `FileSystem`,
`AwsLab`) are classes; the loops of the source are loops.

Inputs of the model rather than parts of it: the clock, random identifiers (fresh in every create of a run),
the SHA-256 digest (32 bytes, no collision among the finitely many tenants and keys that occur, at the
truncation lengths used), what other processes write and when they exit, what the network loses, and which
operating-system operations fail.

## What was found

- **Kubernetes delete frees a key late.** After an accepted delete the in-memory store lets the key be used at
  once; on the cluster a create stores a new claim if and only if the old one is gone (`KeyIsFreeIffGone`,
  `DeletedKeyAnswersTerminating`).
- **Exactly-once creation fails in exactly one way**: a create with the key is executed after a deletion of its
  sandbox, as when someone deletes it between a lost response and the retry (`CreationsAtMostOnceIff`, `ExactlyOnce`,
  `DeletionBetweenAttemptsCreatesTwice`). On the cluster it is a post of a create served after a removal of the stored
  claim (`ClusterCreatesExactlyOnce`, `RemovalBetweenCreatesStoresTwice`).
- **Streamed text is decoded event by event.** It equals the buffered text if and only if no event boundary falls
  inside a character (`StreamAgreesWithBuffered`, `SplittingStreamsDiffer`); bytes always agree.
- **A client that goes away while a chunk is being sent, or before the body starts, does not itself close the command
  stream.** Nothing in `app.py` does; the process runs until the event loop finalizes the generator, and then the
  response can end (`ClosedIffFinalized`, `AbandonedProcessRuns`, `DisconnectedResponseEnds`). A client that goes
  away while the next event is awaited closes the stream at once.
- **A session may cut output without saying so.** The output limit is reported only if something is read after it
  was reached. Output beyond the limit can go unreported exactly if it is less than one read beyond a positive
  limit (`BoundedOutput`, `SilentCutOffIff`).
- **An error may follow the exit message**, exactly if the input task complains after it, which it can until it has
  ended and only about an unsupported message (`SilenceAfterExit`, `ErrorCanFollowExitIff`, `ErrorAfterExit`).
- **The slave descriptor of a session stays open exactly when setting the initial terminal size failed**
  (`SessionCleansUp`, `InvalidSizeLeavesSlaveOpen`).
- **A benchmark can fail with every recorded phase passed**, because the wait between warm samples is made outside
  any phase (`WaitFailureHidden`); the status is passed exactly when all phases passed and no such wait failed
  (`BenchmarkStatus`).
- **A frame round-trips exactly for opcodes below 16**: the writer accepts opcodes up to 255, the reader keeps four
  bits (`OpcodeSurvivesIff`).
- **An upload path with a leading slash is refused**, while for download and listing the slash is trimmed
  (`UploadPathResolution`).

## Model

| member | source | states |
|---|---|---|
| `Store.InMemorySandboxStore.Create` | services/xolis-api/src/store.rs:42-79 | field by field: a key that is known changes nothing and answers the sandbox it points to; otherwise a pending sandbox with the requested owner, profile, lifetime and metadata is stored and answered; agreement of the maps is kept, and with a fresh identifier the call succeeds |
| `Store.InMemorySandboxStore.List` | services/xolis-api/src/store.rs:81-91 | exactly the stored sandboxes of the tenant, each once, in order of creation |
| `Store.InMemorySandboxStore.Get` | services/xolis-api/src/store.rs:93-101 | succeeds exactly for a stored sandbox of the tenant and answers that; otherwise not found |
| `Store.InMemorySandboxStore.Delete` | services/xolis-api/src/store.rs:103-115 | succeeds exactly for a stored sandbox of the tenant; then it and every idempotency entry pointing to it are gone and nothing else changes; agreement of the maps is kept |
| `Store.InsertSorts` | services/xolis-api/src/store.rs:89 | listing inserts by creation time: the result is sorted and a permutation |
| `Store.StaleRecordUnreachable` | services/xolis-api/src/store.rs:45-54 | after any run every idempotency entry points to a live sandbox of its tenant and no two share one, and no call was ever answered with the stale-record conflict |
| `Store.GoneForEver` | services/xolis-api/src/store.rs:93-115 | an identifier that is gone appears in no later answer |
| `Store.RecreatedIsNew` | services/xolis-api/src/store.rs:71-76 | a create with the key of a deleted sandbox yields a new identifier, whatever happened in between |
| `Store.KeyedCreateIsStable` | services/xolis-api/src/store.rs:45-54 | until its tenant deletes it, the sandbox stored for a key is the answer to every create with that key |
| `Store.FoundUntilDeleted` | services/xolis-api/src/store.rs:42-115 | over any later calls: a new sandbox, with the requested values, is found and listed by its own tenant until that tenant deletes it, and by nobody else ever |
| `Store.CreateRefinesEnsure` | services/xolis-api/src/store.rs:43-78 | a keyed create is one insert-if-absent on the sandboxes by (tenant, key) |
| `Store.TenantDecomposition` | services/xolis-api/src/store.rs:42-115 | from any consistent store, the answers a tenant gets and the part of the store it owns are those of a store that ran only its own calls |
| `Store.TenantsAreIsolated` | services/xolis-api/src/store.rs:42-115 | the same over whole runs from the empty store |
| `Identity.AcceptedHeaderIsHeaderText` | services/xolis-api/src/api.rs:281-298 | every accepted tenant or key is non-empty, trimmed, printable text without a zero character |
| `Identity.HeaderTextIsAccepted` | services/xolis-api/src/api.rs:286-298 | and every such text is accepted unchanged |
| `Identity.RequiredHeaderOutcome` | services/xolis-api/src/api.rs:281-298 | the tenant header is unauthorized exactly when absent or made of blanks and tabs, a bad request exactly when it has a byte above 126 or a control other than tab, and otherwise a header text |
| `Identity.AcceptedHeaderIsTrimmed` | services/xolis-api/src/api.rs:286-298 | an accepted value is what was sent, byte for byte, without the blanks around it |
| `Identity.PreimageInjective` | services/xolis-api/src/kubernetes.rs:296-301 | tenant, zero byte, key determines tenant and key |
| `Identity.PreimagesAreSeparate` | services/xolis-api/src/kubernetes.rs:292-301 | the hashed text of a tenant never equals that of a (tenant, key) pair |
| `Identity.HexInjective` | services/xolis-api/src/kubernetes.rs:303-310 | two digests with the same rendering are equal |
| `Identity.HexDigitsAt` | services/xolis-api/src/kubernetes.rs:303-310 | byte `i` is rendered as two lower-case digits, the higher one first, at position `2i` |
| `Identity.SlicesInRange` | services/xolis-api/src/kubernetes.rs:119-139 | every slice taken of a rendered digest lies inside it |
| `Identity.NamesDoNotMeet` | services/xolis-api/src/kubernetes.rs:123-126 | a hash-derived claim name never equals a UUID-derived one |
| `Identity.KeyedNameIsValid` | services/xolis-api/src/kubernetes.rs:119-139 | a keyed claim name is "xolis-" and 24 digits of the digest of tenant, zero byte and key, a valid object name for every tenant and key; both label hashes are valid label values |
| `Identity.KeyedNameInjective` | services/xolis-api/src/kubernetes.rs:119-126 | different (tenant, key) pairs never share a claim name |
| `Claims.ReadableIff` | services/xolis-api/src/kubernetes.rs:160-244 | reading succeeds exactly for readable claims of the asking tenant; a tenant mismatch is "not found" whatever else is wrong |
| `Claims.BuiltClaimReadsBack` | services/xolis-api/src/kubernetes.rs:114-230 | building fails exactly for a TTL beyond 63 bits; otherwise the stamped claim reads back as the requested sandbox, up to the fraction of a second |
| `Claims.BuiltClaimCarries` | services/xolis-api/src/kubernetes.rs:119-158 | the labels of a created claim, exactly: tenant hash, profile, and the key hash if there is a key; the warm pool; and nothing the cluster sets |
| `Claims.FirstReadyPosition` | services/xolis-api/src/kubernetes.rs:246-290 | the condition that decides the state is the first of type Ready |
| `Claims.StateFollowsFirstReady` | services/xolis-api/src/kubernetes.rs:246-290 | for a claim not being deleted: which conditions make it running, expired or failed, when there is no reason text, and what it says otherwise |
| `Claims.StateWithoutReady` | services/xolis-api/src/kubernetes.rs:246-264 | a claim being deleted is terminating, one without a Ready condition pending |
| `Claims.RuntimeOnlyOnReadyClaims` | services/xolis-api/src/api.rs:240-248 | a runtime operation is admitted exactly for a claim that is not being deleted, whose first Ready condition is "True" and whose runtime has a name |
| `Cluster.DerivedNameKeepsOwner` | services/xolis-api/src/kubernetes.rs:114-126 | deriving a claim name never binds a known name to another tenant |
| `Cluster.ServeChangesClaims` | services/xolis-api/src/kubernetes.rs:48-103 | the only changes a call makes: a create fills a free name, a verified delete marks the claim it named |
| `Cluster.ListSelectsExactlyOwn` | services/xolis-api/src/kubernetes.rs:74-88 | the label selector of a list selects exactly the claims derived for the asking tenant (what the list then answers: `ClusterAnswers.ListAnswersExactlyOwn`) |
| `Cluster.StepKeepsInv` | services/xolis-api/src/kubernetes.rs:48-103 | every step, of any replica or controller, keeps the invariant and every binding of a name to a tenant |
| `ClusterRuns.ReachableInv` | services/xolis-api/src/kubernetes.rs:48-103 | the invariant holds after every prefix of every interleaving |
| `ClusterRuns.NameServesOneTenant` | services/xolis-api/src/kubernetes.rs:48-103 | a claim name passes the tenant check for the same tenants at any two moments of a run, even across removal and re-creation |
| `ClusterRuns.RepliesStayWithinTenant` | services/xolis-api/src/kubernetes.rs:64-93 | an identifier in any answer names, then and later, only a claim of the tenant that asked |
| `ClusterRuns.CallsTouchOwnClaims` | services/xolis-api/src/kubernetes.rs:95-103 | no step of a call changes a claim another tenant could see; in particular a delete whose check is some steps old |
| `ClusterRuns.CreateTakesEffectAtomically` | services/xolis-api/src/kubernetes.rs:64-71 | the step with which a create succeeds is one insert-if-absent on the stored claims, and the answer reports what it returns |
| `ClusterRuns.ReturnedWasStored` | services/xolis-api/src/kubernetes.rs:64-93 | a returned sandbox is what the stored claim read as at some moment within the call |
| `ClusterRuns.IdIdentifiesPair` | services/xolis-api/src/kubernetes.rs:64-71 | successful creates return the same id if and only if they are for the same (tenant, key) |
| `ClusterRuns.FirstWriterWins` | services/xolis-api/src/kubernetes.rs:64-71 | while the claim is not removed, every successful create reports the core of the one stored claim |
| `ClusterRuns.StoresAgree` | services/xolis-api/src/store.rs:43-78 | insert-if-absent by pair (the locked store) and by derived name (the cluster) answer alike and stay in step |
| `ClusterRuns.KeyIsFreeIffGone` | services/xolis-api/src/kubernetes.rs:64-71 | a keyed create with nothing in between succeeds, and stores a new claim if and only if the name is free; otherwise nothing is stored and a claim being deleted is returned as terminating |
| `ClusterAnswers.ListAnswersExactlyOwn` | services/xolis-api/src/kubernetes.rs:74-88 | over every run: a list served without losing its response always answers a list, and a sandbox is in it if and only if some stored claim derived for the asking tenant reads as it |
| `ClusterAnswers.ListCanBeServed` | services/xolis-api/src/kubernetes.rs:74-88 | on every reachable state an outstanding list can be served |
| `ClusterAnswers.GetAnswersExactlyOwn` | services/xolis-api/src/kubernetes.rs:90-93 | over every run: a get answers what the stored claim reads as if its name was derived for the asking tenant, and "not found" otherwise |
| `ClusterAnswers.ReportedStatusIsRead` | services/xolis-api/src/kubernetes.rs:199-230 | what a controller reports about a claim is what the next get answers: runtime name, first pod address, running exactly for a first Ready condition "True", terminating while being deleted |
| `ClusterAnswers.DeleteLooksForOwn` | services/xolis-api/src/kubernetes.rs:95-100 | the first half of a delete goes on exactly for a stored claim derived for the asking tenant, and changes nothing |
| `ClusterAnswers.DeleteMarksOwn` | services/xolis-api/src/kubernetes.rs:95-103 | the second half marks that claim and no other, which then reads as terminating, or answers "not found" if it is gone by then |
| `ClusterAnswers.MarkedStaysMarked` | services/xolis-api/src/kubernetes.rs:246-249 | a claim that is being deleted stays so in every continuation until it is removed |
| `ClusterAnswers.LossChangesTheAnswerOnly` | services/xolis-api/src/kubernetes.rs:64-103 | a lost response leaves the cluster as the same request would with its response; only the call learns of the failure instead |
| `ClusterAnswers.CreateRefusedIff` | services/xolis-api/src/kubernetes.rs:48-63 | a create is refused without a request to the cluster exactly for another profile or a TTL beyond 63 bits; otherwise it posts a claim under its derived name |
| `ClusterAnswers.StoredForProfile` | services/xolis-api/src/kubernetes.rs:48-63 | over every run every stored claim carries the configured profile and warm pool |
| `Sequential.RunIsSequential` | services/xolis-api/src/kubernetes.rs:48-103 | over every interleaving the stored claims are a sequential run of the effects: insertions if absent and erasures, in the order they happen |
| `Sequential.CreatesAreLinearizable` | services/xolis-api/src/kubernetes.rs:64-71 | every successful create has its effect at one moment within the call, on the name it returns, and answers what the sequential run of all effects answers there |
| `Sequential.OneEffectPerCall` | services/xolis-api/src/kubernetes.rs:64-71 | no call has more than one effect |
| `Store.RunIsSequential` | services/xolis-api/src/store.rs:42-115 | over whole runs what the locked store holds by pair is a sequential run of the same kind of effects |
| `Sequential.SequencesAgree` | services/xolis-api/src/kubernetes.rs:119-126 | any list of effects by claim name and the same list by pair, run sequentially, end with the same contents |
| `Sequential.ClusterRunIsSequentialByPair` | services/xolis-api/src/kubernetes.rs:48-103 | the whole run of the cluster is, by pair, a sequential run of insertions if absent and erasures, and every successful keyed create answers what that run answers for its pair at one moment within the call |
| `BothStores.LockedStoreReports` | services/xolis-api/src/store.rs:42-115 | for any list of effects by pair there are calls of the locked store after which it holds for each pair a sandbox that reports what the sequential run holds |
| `BothStores.LockedStoreDoesTheSame` | services/xolis-api/src/kubernetes.rs:48-103 | for every run of the cluster whose lifetimes are whole seconds of 64 bits there is a run of the locked store, with fresh identifiers, after which both hold sandboxes that report the same for every pair |
| `BothStores.CreatesAreAnsweredAlike` | services/xolis-api/src/kubernetes.rs:64-71 | and at one moment within each successful keyed create of the cluster, the locked store answers a create for the pair with a sandbox that reports the same |
| `Sequential.WhoChangesAName` | services/xolis-api/src/kubernetes.rs:48-103 | only a removal loses the name of a pair, and only the post of a create for that pair fills it |
| `Sequential.ClusterCreatesExactlyOnce` | deploy/tests/smoke_service.py:88-131 | against the cluster: however many attempts with one key are executed and however they interleave, their claim is stored at most once if and only if no post of a create for the key is served after a removal of its stored claim; without a removal it is stored exactly as often as it is there at the end, and at least once if an attempt succeeds |
| `Sequential.RemovalBetweenCreatesStoresTwice` | services/xolis-api/src/kubernetes.rs:64-71 | a run in which two creates for one pair succeed and the claim is stored twice |
| `Sequential.DeletedKeyAnswersTerminating` | services/xolis-api/src/kubernetes.rs:64-103 | a run in which a create after an accepted delete with the same key succeeds with the terminating sandbox and stores nothing |
| `Client.CreateSandbox` | deploy/tests/smoke_service.py:88-111 | the retry loop of ten attempts leaves the server as running the executed operations does, and returns the first answer that came back; it returns an answer exactly if an attempt is reached and answered, and the error of reconnecting exactly if one is reached after which that raises |
| `Client.CreationsAtMostOnceIff` | deploy/tests/smoke_service.py:120-131 | over any run and whichever clients take part: creates with one key add at most one sandbox (none, if one is stored already) if and only if no create with the key follows a deletion of its sandbox; and at least one if a create runs for a new key |
| `Client.AcceptedIsStored` | deploy/tests/smoke_service.py:88-111 | the accepted answer is what the server holds for the key at the end |
| `Client.ExactlyOnce` | deploy/tests/smoke_service.py:88-131 | the same for one client call of ten attempts, however many of them were executed; for a new key an accepted call adds exactly one sandbox if and only if that condition holds, and in every case it returns the sandbox stored for its key |
| `Client.DeletionBetweenAttemptsCreatesTwice` | deploy/tests/smoke_service.py:88-111 | an accepted call of ten attempts that creates two sandboxes, because of a deletion after a lost response |
| `Stream.ReadLimited` | services/xolis-runtime-python/src/xolis_runtime/core.py:109-119 | the captured bytes are the first `maximum` bytes of the whole output, for every chunking |
| `Stream.StepKeepsInv` | services/xolis-runtime-python/src/xolis_runtime/core.py:164-247 | every step of readers, consumer, process, clock or caller keeps queue, budget, trace and process accounts in step (the clock against the start of the process: `StreamHistory.TimeoutIsNeverEarly`, `StreamHistory.DeadlineIsEnforced`) |
| `Stream.RunKeepsInv` | services/xolis-runtime-python/src/xolis_runtime/core.py:164-247 | the invariant holds after every interleaving |
| `Stream.LosslessBoundedOutput` | services/xolis-runtime-python/src/xolis_runtime/core.py:182-219 | at every moment the emitted bytes of a stream are a prefix of what was read, within the limit; when both end markers are counted the queue is empty and they are exactly the first `limit` bytes |
| `Stream.ExitMeansAllOutput` | services/xolis-runtime-python/src/xolis_runtime/core.py:206-234 | an exit event without a timeout event means exactly that much was emitted |
| `Stream.ExitCarriesReturnCode` | services/xolis-runtime-python/src/xolis_runtime/core.py:221-240 | an exit event that no timeout preceded carries the return code of the reaped process |
| `Stream.FinishedRuns` | services/xolis-runtime-python/src/xolis_runtime/core.py:178-247 | a finished generator emitted one error, or start, outputs, at most one timeout and an exit (124 after a timeout), or the beginning of that if it was closed; a started process is reaped, no reader is left, and at most twice the limit of output events occurred |
| `StreamRuns.ClosedStream` | services/xolis-runtime-python/src/xolis_runtime/core.py:240-247 | closed or cancelled at any suspension, over every continuation: nothing more is yielded and the cleanup is never stuck, waiting only for a killed leader |
| `StreamRuns.ClosedStreamEnds` | services/xolis-runtime-python/src/xolis_runtime/core.py:240-247 | from every suspension, closing, the cleanup and the exit of the killed leader lead to the end |
| `StreamRuns.EveryChunkingStreams` | services/xolis-runtime-python/src/xolis_runtime/core.py:184-219 | any chunking of an output within the limit can arrive as exactly those output events |
| `StreamHistory.TimeSinceStart` | services/xolis-runtime-python/src/xolis_runtime/core.py:194-204 | over every run the deadline is the clock at the start of the process plus the timeout |
| `StreamHistory.TimeoutIsNeverEarly` | services/xolis-runtime-python/src/xolis_runtime/core.py:194-204 | from the actions alone: where a timeout was noticed or announced, at least the timeout has passed since the process was started |
| `StreamHistory.DeadlineIsEnforced` | services/xolis-runtime-python/src/xolis_runtime/core.py:199-226 | and never late: before waiting for output, while waiting for it and while waiting for the exit, the generator can kill the process if and only if that much has passed, and nothing else makes it kill the process for the deadline |
| `StreamHistory.LoopGoesOnInTime` | services/xolis-runtime-python/src/xolis_runtime/core.py:199-206 | before that it waits for output, or for the exit exactly if both end markers were counted |
| `StreamHistory.ExpiredStreamReports` | services/xolis-runtime-python/src/xolis_runtime/core.py:221-239 | a killed process that has ended lets the generator yield the timeout and exit code 124 |
| `StreamHistory.StartedBy` | services/xolis-runtime-python/src/xolis_runtime/core.py:178-197 | a run starts at most one process, and the first event carries its id |
| `StreamHistory.ReturnCodeIsLeaders` | services/xolis-runtime-python/src/xolis_runtime/core.py:221-234 | the return code is exactly the one the process exited with in the run |
| `StreamHistory.EventsFollowReads` | services/xolis-runtime-python/src/xolis_runtime/core.py:182-219 | at every moment the output events of both streams are those of the first reads, in the order of the reads, each cut to what its stream may still emit, and the rest is queued |
| `StreamHistory.ExitTellsWhatHappened` | services/xolis-runtime-python/src/xolis_runtime/core.py:206-240 | an exit without a timeout means that both readers came to their end, that the process exited with that code, and that the output events are exactly those of everything that was read |
| `Utf8.DecodeInTwo` | services/xolis-runtime-python/src/xolis_runtime/core.py:206-219 | decoding two pieces separately gives the text of the whole if and only if no character is split, and strictly more text if one is |
| `Utf8.PiecewiseDecodeIff` | services/xolis-runtime-python/src/xolis_runtime/core.py:206-219 | the same for any number of pieces |
| `Utf8.AsciiCutsAnywhere` | services/xolis-runtime-python/src/xolis_runtime/core.py:206-219 | ASCII text can be cut anywhere |
| `Utf8Text.DecodeEncoded` | services/xolis-runtime-python/src/xolis_runtime/core.py:155-156 | with the encoder of table 3-6 of the Unicode Standard, section 3.9: every text comes back from its encoding |
| `Utf8Text.AsciiDecodes` | services/xolis-runtime-python/src/xolis_runtime/core.py:155-156 | ASCII bytes are their own text |
| `Utf8Text.DecodeReplacesIllFormed` | services/xolis-runtime-python/src/xolis_runtime/core.py:155-156 | any bytes fall into parts, and the text has one character for each: the one it encodes, or U+FFFD for a maximal ill-formed part |
| `Utf8Text.IllFormedIsReplaced` | services/xolis-runtime-python/src/xolis_runtime/core.py:155-156 | a maximal ill-formed part becomes one U+FFFD and decoding starts afresh after it |
| `Utf8Text.CutTextDecodes` | services/xolis-runtime-python/src/xolis_runtime/core.py:109-119 | a text cut by a byte limit decodes to the characters that fit and one U+FFFD exactly if the cut is inside a character |
| `Execution.ExecuteCommand` | services/xolis-runtime-python/src/xolis_runtime/core.py:122-161 | captured and decoded output, exit code, timeout text and launch failure of the buffered call; a process that writes a text in UTF-8 within the limit gets exactly that text as its output |
| `Execution.StreamAgreesWithBuffered` | services/xolis-runtime-python/src/xolis_runtime/core.py:206-219 | for a stream without a timeout and any chunking of the same output the bytes equal those of the buffered call; the texts do exactly when no event boundary splits a character, and always for ASCII |
| `Execution.SplittingStreamsDiffer` | services/xolis-runtime-python/src/xolis_runtime/core.py:206-219 | every chunking of an output within the limit that splits a character occurs in a stream without a timeout, and gives a different text |
| `Execution.SplitCharacterDiffers` | services/xolis-runtime-python/src/xolis_runtime/core.py:206-219 | in particular a two-byte character read in two halves |
| `Execution.ResponseDecodes` | services/xolis-runtime-python/src/xolis_runtime/app.py:61-88 | the response body of any command, cut after any event, decodes to the events sent |
| `Execution.ClientReadsWhatWasWritten` | services/xolis-runtime-python/src/xolis_runtime/core.py:164-247 | from process to client: if a command wrote a text within the limit and its stream ended by itself, the text collected from the decoded "stdout" (or "stderr") events is that text if and only if no event boundary splits a character; the first event names the process and the last the code it exited with |
| `Execution.ClientCollects` | services/xolis-runtime-python/src/xolis_runtime/app.py:73-86 | the events named "stdout" carry standard output, those named "stderr" standard error |
| `Execution.ClientHearsFailures` | services/xolis-runtime-python/src/xolis_runtime/app.py:61-88 | a client of a timed-out command is told the timeout and exit code 124, one of a command that could not be started only why |
| `Response.RunKeepsInv` | services/xolis-runtime-python/src/xolis_runtime/app.py:61-88 | the invariant that ties the body, the phase of the response and the command stream holds after every interleaving |
| `Response.BodyDecodesToTrace` | services/xolis-runtime-python/src/xolis_runtime/app.py:73-86 | at every moment the body decodes to the first events of the stream's trace, at most one behind it |
| `Response.EndedResponseCleansUp` | services/xolis-runtime-python/src/xolis_runtime/app.py:73-86 | when a response is over, however it ended, the command stream has finished and its process is reaped; unless the client went away, the complete trace was sent |
| `Response.ClosedIffFinalized` | services/xolis-runtime-python/src/xolis_runtime/app.py:61-88 | over every continuation of a response abandoned before its body starts or while a chunk is sent: the command stream is closed if and only if the event loop finalizes its generator, and until then it stays suspended where it was |
| `Response.AbandonedProcessRuns` | services/xolis-runtime-python/src/xolis_runtime/app.py:73-86 | a response abandoned while its first chunk is sent, whose process is still running |
| `Response.DisconnectedResponseEnds` | services/xolis-runtime-python/src/xolis_runtime/app.py:73-86 | wherever the client goes away, the response can come to its end with its process reaped |
| `Interactive.StepKeepsInv` | services/xolis-runtime-python/src/xolis_runtime/interactive.py:30-153 | every step of the session, its tasks, the process or the clock keeps the invariant |
| `Interactive.RunKeepsInv` | services/xolis-runtime-python/src/xolis_runtime/interactive.py:30-153 | the invariant holds after every interleaving, including failing sends and cancellation at any await |
| `Interactive.BoundedOutput` | services/xolis-runtime-python/src/xolis_runtime/interactive.py:65-87 | the bytes sent are a prefix of the terminal's bytes within the limit, and all of those once the output task ended normally; it ends by its limit exactly when something was read after the limit was reached, hence only beyond the limit |
| `Interactive.SessionSpeaksProtocol` | services/xolis-runtime-python/src/xolis_runtime/interactive.py:111-140 | nothing, one error, or a start message first; one exit at most, and only errors after it; 124 after a timeout message; the exit code priority 124, 130, 125, return code of the reaped process |
| `Interactive.ExitCodeDecidedByRace` | services/xolis-runtime-python/src/xolis_runtime/interactive.py:107-134 | over every continuation, the exit code is fixed by the state of the three tasks when the race ended; after a failed task there is no exit (in terms of the actions: `InteractiveHistory.ExitCodeFromActions`) |
| `Interactive.PhaseMeans` | services/xolis-runtime-python/src/xolis_runtime/interactive.py:63-140 | the automaton of the invariant accepts only traces with that shape |
| `Interactive.SessionCleansUp` | services/xolis-runtime-python/src/xolis_runtime/interactive.py:141-153 | at the end, whatever failed, the process is reaped, every task has ended and the master is closed; the slave is open exactly when the initial resize failed |
| `InteractiveRuns.SilenceAfterExit` | services/xolis-runtime-python/src/xolis_runtime/interactive.py:89-140 | over every continuation nothing follows the exit message if and only if the input task sends no complaint after it; and a client that sent no unsupported message hears nothing after the exit |
| `InteractiveRuns.ErrorCanFollowExitIff` | services/xolis-runtime-python/src/xolis_runtime/interactive.py:89-140 | once the exit message is sent, another message can still follow if and only if the input task has not ended |
| `InteractiveRuns.ErrorAfterExit` | services/xolis-runtime-python/src/xolis_runtime/interactive.py:89-140 | a session with an error message after its exit message |
| `InteractiveRuns.InvalidSizeLeavesSlaveOpen` | services/xolis-runtime-python/src/xolis_runtime/interactive.py:50-51 | a session that ends with its slave descriptor open, because its terminal size was refused |
| `InteractiveRuns.CancelledSession` | services/xolis-runtime-python/src/xolis_runtime/interactive.py:137-153 | cancelled at any await, over every continuation: only output and error messages follow, no start, timeout or exit; the cleanup is never stuck, waiting only for a killed process; and once it has finished nothing follows |
| `InteractiveRuns.CancelledSessionEnds` | services/xolis-runtime-python/src/xolis_runtime/interactive.py:137-153 | a schedule that ends a cancelled session: at once, or with the exit of the killed process |
| `InteractiveRuns.SilentCutOff` | services/xolis-runtime-python/src/xolis_runtime/interactive.py:65-87 | for every positive limit and every output of more than the limit but less than one read beyond it, a session that sends the first `limit` bytes, no error, and the exit code of the process |
| `InteractiveRuns.SilentCutOffIff` | services/xolis-runtime-python/src/xolis_runtime/interactive.py:65-87 | output beyond the limit can end without the report of the limit if and only if the limit is positive and it is less than one read beyond it |
| `InteractiveHistory.InputTaskFollowsClient` | services/xolis-runtime-python/src/xolis_runtime/interactive.py:89-105 | over every run: the input task ends exactly if the client asked to cancel or closed, fails exactly with the error of a broken message or of a complaint that could not be sent, and while active complains exactly if the last message was unsupported; input and resizing keep it receiving |
| `InteractiveHistory.OutputTaskFollowsTerminal` | services/xolis-runtime-python/src/xolis_runtime/interactive.py:65-87 | the output task ends exactly if the terminal came to its end, by its limit exactly if an overrun was reported, and fails exactly if one of its messages could not be sent |
| `InteractiveHistory.ProcessFollowsLeader` | services/xolis-runtime-python/src/xolis_runtime/interactive.py:107-126 | the process has ended with a code exactly if it exited with it, and the waiting task exactly if it ran |
| `InteractiveHistory.SessionStart` | services/xolis-runtime-python/src/xolis_runtime/interactive.py:63-64 | the first message carries the process id, and the deadline is the lifetime after it |
| `InteractiveHistory.DeadlineFollowsStart` | services/xolis-runtime-python/src/xolis_runtime/interactive.py:107-121 | from the actions alone: the race can end if and only if a task has ended or the lifetime has passed since the start message, and a timeout is announced only then |
| `InteractiveHistory.ExitCodeFromActions` | services/xolis-runtime-python/src/xolis_runtime/interactive.py:107-134 | from the actions alone: 130 if the client had asked to cancel or had closed when the race ended, else 125 if the overrun had been reported, else the code the process exits with if the terminal or the process had ended, else 124 and the whole lifetime had passed; none if a task had failed |
| `InteractiveHistory.EveryRaceCanExit` | services/xolis-runtime-python/src/xolis_runtime/interactive.py:107-140 | whenever the race can end and no task has failed, some continuation sends the exit message, with that code |
| `InteractiveHistory.FailuresAreReported` | services/xolis-runtime-python/src/xolis_runtime/interactive.py:135-140 | whatever fails, the next message is an error if and only if the failure is not a disconnection or a cancellation, and then the session cleans up |
| `Upload.Copy` | services/xolis-runtime-python/src/xolis_runtime/core.py:259-269 | while chunks are copied nothing but the temporary file changes, and that never exceeds the limit; without an error it holds the whole content |
| `Upload.WriteUpload` | services/xolis-runtime-python/src/xolis_runtime/core.py:250-275 | in every state passed through the destination is as before or complete; on success it is complete, on failure nothing changed and no temporary file remains unless removing it failed |
| `Upload.AcceptedIffWithinLimit` | services/xolis-runtime-python/src/xolis_runtime/core.py:262-269 | for every chunking, absent I/O failure, an upload succeeds exactly when its length is at most the limit; with failures, success and "too large" still imply it fits, or does not |
| `Upload.ContentIsFlatten` | services/xolis-runtime-python/src/xolis_runtime/core.py:262 | a source read in non-empty pieces contributes all of them |
| `Upload.UploadStaysInWorkspace` | services/xolis-runtime-python/src/xolis_runtime/core.py:254-261 | no state of an upload differs from the first outside the workspace |
| `Frames.MaskInvolution` | tools/hermes_demo.py:365-366 | masking is its own inverse (what it does to each bit: `FrameBits.MaskedIsBody`) |
| `Frames.Connection.ReadExact` | tools/hermes_demo.py:369-376 | exactly the next `length` bytes however they are delivered, or an error and an exhausted connection |
| `Frames.Connection.ReadFrame` | tools/hermes_demo.py:379-393 | the frame that the layout describes and the bytes after it, for every delivery pattern |
| `Frames.FrameRoundTrip` | tools/hermes_demo.py:354-393 | an encoded frame followed by anything reads back, leaving what followed |
| `Frames.OpcodeSurvivesIff` | tools/hermes_demo.py:354-382 | it reads back with its opcode if and only if that is below 16 |
| `Frames.StreamRoundTrip` | tools/hermes_demo.py:354-393 | any list of frames with any masks, encoded one after another, parses as the same list and every byte is consumed |
| `Frames.Connection.ReadFrames` | tools/hermes_demo.py:369-393 | reading frame after frame yields the list the bytes parse as, for every delivery pattern, and consumes every byte |
| `Frames.WriteThenRead` | tools/hermes_demo.py:354-393 | any list of frames with any masks, written and then read through any pattern of short reads, comes back as the same list and no byte is left |
| `Frames.TruncatedFrameIsDetected` | tools/hermes_demo.py:369-393 | a frame cut before its end is an early close, never another frame |
| `Frames.EncodingIsMinimal` | tools/hermes_demo.py:358-363 | no masked frame with the same payload is shorter |
| `FrameBits.XorBit` | tools/hermes_demo.py:365 | the exclusive or of two bytes has exactly the bits in which they differ |
| `FrameBits.MaskedIsBody` | tools/hermes_demo.py:365 | each bit of the body is flipped exactly where the mask, repeated every four bytes, has a one |
| `FrameBits.BigEndianIsByPosition` | tools/hermes_demo.py:360-363 | a length field holds the bytes of the length, the most significant first |
| `FrameBits.WrittenIsFrame` | tools/hermes_demo.py:354-366 | what the writer sends is a final masked frame with that opcode, mask and payload, bit by bit and field by field in the layout of section 5.2 of RFC 6455, with the shortest length field |
| `FrameBits.FrameIsRead` | tools/hermes_demo.py:379-393 | every frame laid out like that, masked or not, is read as its opcode and payload, and what follows is left |
| `FrameBits.ReadIsFrame` | tools/hermes_demo.py:379-393 | and whatever is read as a frame is laid out like that |
| `Sse.StringRoundTrip` | services/xolis-runtime-python/src/xolis_runtime/app.py:79 | a JSON string literal reads back as its text, for every text |
| `Sse.DataIsOneLine` | services/xolis-runtime-python/src/xolis_runtime/app.py:77-80 | the data field is one line of printable ASCII, whatever the text |
| `Sse.StreamRoundTrip` | services/xolis-runtime-python/src/xolis_runtime/app.py:73-86 | parsing the concatenated events and decoding their data gives the original events |
| `Paths.PercentRoundTrip` | services/xolis-api/src/runtime.rs:19-30 | percent-decoding inverts the encoding |
| `Paths.EncodedPathDecodes` | services/xolis-api/src/runtime.rs:317-319 | what the client sends decodes to the path without its leading slashes |
| `Paths.EncodingIsOneSegment` | services/xolis-api/src/runtime.rs:19-30 | the encoding holds percent signs, letters, digits and the listed marks only, so no slash, question mark, number sign, blank, control or byte beyond ASCII; and a path is left as it is if and only if it is made of those |
| `Paths.ValidatedIff` | services/xolis-api/src/api.rs:250-258 | the API refuses exactly the empty path, a path with a zero byte, and one with ".." between separators or ends |
| `Paths.SplitJoins` | services/xolis-api/src/api.rs:250-258 | a path is its components with one separator between them |
| `Paths.ResolutionIsConfined` | services/xolis-runtime-python/src/xolis_runtime/core.py:94-106 | whatever is requested, a successful resolution is a strict descendant of the workspace |
| `Paths.ParentUndoes` | services/xolis-runtime-python/src/xolis_runtime/core.py:94-106 | ".." undoes the component before it wherever they stand, and does nothing at the root |
| `Paths.LeavingIsRefused` | services/xolis-runtime-python/src/xolis_runtime/core.py:94-106 | a path that leaves the workspace is accepted if and only if it comes back into it by name |
| `Paths.PipelineConfinesPaths` | services/xolis-api/src/api.rs:250-258 | a path the API accepts resolves to the workspace followed by its named parts, and is refused exactly when it names nothing |
| `Paths.UploadPathResolution` | services/xolis-api/src/runtime.rs:281-293 | the upload route, which sends the path as it is, also refuses a leading slash |
| `ShellQuote.QuoteRoundTrip` | tools/xolis_image_builder.py:148-149 | a shell reads the quoted value as one word equal to it if and only if it has no NUL |
| `ShellQuote.QuotedThen` | tools/xolis_image_builder.py:148-149 | text after a following blank is read independently |
| `ShellQuote.DownloadCommandArguments` | tools/xolis_image_builder.py:103 | a shell reads the generated command as `curl`, its four flags, the URL unchanged, and the output option, for any URL |
| `Lab.AwsLab.Phase` | tools/xolis_aws_lab.py:421-437 | a phase runs its steps up to the first failure and is recorded however it ends |
| `Lab.AwsLab.Service` | tools/xolis_aws_lab.py:217-253 | log, phases, report and outcome are those of the plan followed by the node stop |
| `Lab.AwsLab.Benchmark` | tools/xolis_aws_lab.py:255-314 | likewise with the pool reset before the node stop; fewer than one iteration is refused before anything happens |
| `Lab.PassingPrefixIsLongest` | tools/xolis_aws_lab.py:217-253 | the recorded prefix passes and the item after it fails |
| `Lab.ServiceRun` | tools/xolis_aws_lab.py:217-253 | under every pattern of failures: recorded phases are the longest passing prefix, the failing phase if any, and the node stop; the node stop is attempted exactly once and last; the remembered error is the first; passed exactly when all recorded phases passed |
| `Lab.BenchmarkRun` | tools/xolis_aws_lab.py:255-314 | the same, with the pool reset attempted exactly once, after the plan and before the node stop |
| `Lab.BenchmarkStatus` | tools/xolis_aws_lab.py:281-309 | passed exactly when all recorded phases passed and no step outside a phase failed |
| `Lab.WaitFailureHidden` | tools/xolis_aws_lab.py:286-288 | with two or more iterations a failing wait leaves every recorded phase passed |
| `Lab.SingleIterationStatus` | tools/xolis_aws_lab.py:255-314 | with one iteration the status says exactly whether all recorded phases passed |
| `Lab.OutcomeIsFirstFailure` | tools/xolis_aws_lab.py:251-253 | the error raised is the first in the log, unless one was remembered and writing the report failed as well |
| `LabSteps.ServiceSteps` | tools/xolis_aws_lab.py:217-243 | whatever fails, `service` makes the listed steps in the listed order up to the first failure, each manifest being checked and then applied |
| `LabSteps.ServiceChecksFirst` | tools/xolis_aws_lab.py:217-243 | every manifest and script is used right after it was found, and after everything before it succeeded |
| `LabSteps.SamplesMeetTheirPool` | tools/xolis_aws_lab.py:255-292 | for every number of iterations and whatever fails: a cold sample is taken only with the pool last set to zero, a warm one only with the pool last set to one, waited for in both cases and right before each warm one |
| `LabSteps.ServicePhases` | tools/xolis_aws_lab.py:217-243 | the results name the phases in the listed order up to the first that failed, and every step is made in the phase it belongs to |
| `LabSteps.BenchmarkPhases` | tools/xolis_aws_lab.py:255-292 | the same for the setup, the cold samples and the warm samples, one of each for every iteration |
| `LabSteps.ServiceLeavesNodeDown` | tools/xolis_aws_lab.py:200-253 | when the node stop is recorded as passed, the last scaling was a successful one down to zero and the nodes were waited for, whatever failed before |
| `LabSteps.BenchmarkLeavesNothingUp` | tools/xolis_aws_lab.py:293-309 | the same, and when the pool cleanup is recorded as passed the pool was last set to zero |

## Left out

- Concurrent components (`Cluster`, `Stream`, `Response`, `Interactive`) are step systems over values, not objects: aliasing and
  scheduling fairness are not captured, and no bound on time is claimed.
- HTTP routing, request validation and status codes (`api.rs`), the relay of interactive sockets (`runtime.rs`), the
  Go router, AWS, kubectl, Packer, OpenTofu and manifests: input and output without an internal property.
- SHA-256, UUID, chrono and serde internals: inputs with the hypotheses named above. Collision freedom is assumed
  only on the finite set of values that occur, since no function to 24 hex digits is injective.
- Date arithmetic that leaves the range of chrono (a panic in `store.rs` and `kubernetes.rs`) is not modelled; times are integers.
- BothStores: a lifetime beyond a signed 64-bit number of seconds, which takes a TTL near 2^63 seconds or clocks that far
  apart, is outside the correspondence.
- Store.InMemorySandboxStore.List: the order among equal creation times, which the source leaves to its hash map, is open.
- The cluster's `list` sorts by creation time; `Cluster` answers with a set.
- Cluster steps other than create and delete change a claim only in its status and deletion mark, and labels are
  changed by nobody; a cluster administrator editing labels is outside the model.
- Client: only the create call is modelled, and the responses other than 202 are one outcome.
- Stream: survival of descendants of the command outside its process group; reaping is stated for the leader. A
  cancellation that arrives while the process is being spawned, or during the cleanup itself, is not modelled.
- Response: the status line and headers; when the event loop finalizes a generator is open (it is a step that may
  come at any time or never); an invalid command, refused before the stream starts, is a response that never begins.
  `encode_events` is suspended at each chunk, so its loop is a step system and not a method.
- Interactive: decoding of input data and writing it to the terminal are one step that may fail; a timeout error
  raised inside the output task during the last second of draining (suppressed by the code) is treated as any other error.
- `StreamHistory`, `InteractiveHistory`: time is what the clock steps add; how long a step itself takes, and the grace
  periods of killing and draining, are not modelled.
- Interactive: cancellation while the process is being spawned, and a second one during the cleanup, are not modelled.
- Upload.WriteUpload: directories, permissions and other writers of the same directory are not modelled; if the
  random temporary name equals the destination's, atomicity is not claimed; nor is durability after a crash.
- Paths: symbolic links; normalisation of dot segments by an HTTP client on the way.
- Utf8: the incremental decoder is defined by its state machine, byte by byte; `errors="replace"` only.
- Sse: event data with one member, as the commands emit; floats and nested data are not needed there.
- ShellQuote: expansion, substitution and operators are outside the lexer, which refuses the characters that start them.
- Lab: polling loops for nodes and pools are single steps that may fail; durations, log and report texts, and the
  benchmark's statistics are not modelled. `cycle` starts the node outside its protected block and is not covered.
- `parse_command` (a call to `shlex`), `list_directory`, the cost tool and the profile renderer: easy members only.
