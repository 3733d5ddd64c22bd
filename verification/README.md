# Rankuno engine: a verified model of its decision logic

This project models the parts of the Rankuno crawl server that decide things in
memory, and proves what each of them is for.

- **Crawl admission** (`Admission`, `SeedUrl`, `AdmissionRuns`, `AdmissionResults`).
  `ApiState` claims a slot under a provisional id, re-keys it to the stored id and gives
  it back from three places. The class carries the in-place bookkeeping; `AdmissionRuns`
  interleaves its locked operations over every run: handlers and dispatch tasks on the
  event loop's first-in first-out queue, crawls and password checks on a bounded
  executor, store failure, a dying handler, cancel and delete as steps.
  `AdmissionResults` is what holds of every such run.
- **Orphan reconciliation** (`ProcessTree`, `Ledger`, `Reconcile`). The descendant walk
  without a visited set, the ledger dict, and the startup pass over a process table
  that its own kills change.
- **Capped inflate** (`BoundedGzip`). The nested chunk loop over a stream machine given
  by the law it must obey: with input and a limit of at least one it consumes or
  produces, never produces past the limit, and may hold output back until `flush`. A
  small concrete machine shows the law can be met.
- **Per-org cache** (`OrgTtlCache`). Every interleaving of threads inside `get`, from the
  guarded `setdefault` that makes an org's lock to the store under it.
- **TypeScript exporter** (`TsTypes`, `TsParser`, `TsMeaning`, `TsGuard`). The printer, a
  recursive-descent reader that shares nothing with it, the JSON values both sides
  stand for, and the tokenizer that guards against dangling references.
- **Circuit breaker** (`CircuitBreaker`). The class, and its state as a function of its
  event history.
- **Session tokens and password records** (`Text`, `Base64Url`, `SessionTokens`,
  `PasswordRecords`). Printers and parsers that undo each other: RFC 4648 section 5
  without padding, RFC 7515 section 7.1 framing, and the `$`-separated record.
- **Progress and resume** (`Telemetry`, `Checkpoint`). Smoothing over the reals, write
  throttles, the source-flag codec and the resume split.
- **Deliverable builds** (`Deliverables`). The admission pattern again, with a temporary
  bundle whose life must match its build's.

Where the source updates state in place the model is a class or a method with loops,
proved against a function on values; the theorems about whole runs are about that
function. `Common` holds a few shared definitions. `dafny verify dfyconfig.toml` checks
everything.

## Where the code differs from its documentation

The model follows the code. Each difference is a lemma.

- The process walk states no condition on its snapshot but ends only when its root is on
  no parent cycle (`ProcessTree.EndsExactlyOffCycle`); the reconciliation ends exactly
  when no entry whose tree it walks is on one at its turn (`Reconcile.EndsExactly`).
- `reconcile_orphans` says it returns the PIDs actually terminated. Through a Job Object
  it returns the ledgered PID whatever the job held (`Reconcile.ReportedExactly` for one
  entry, `Reconcile.ReportIsExact` for the whole list, `Reconcile.ReportCanMiss`).
- A second reconciliation straight after the first can still kill: the first run may
  kill a process that supervises an entry it had spared (`Reconcile.SecondRunIdleExactly`,
  `Reconcile.SecondRunCanKill`).
- A Screaming Frog admission can leak its slot: between the reservation and the `try`
  the handler builds an input whose URL may hold 2048 characters, and normalising a URL
  of that length can add one. The slots empty out again if and only if no such URL was
  admitted (`AdmissionResults.NoSlotLeaksExactly`, `SeedUrl.TooLongExactly`,
  `AdmissionResults.LongUrlStrands`); one leak blocks the facet for the life of the
  process (`AdmissionResults.StrandedBlocksFacet`).
- The cache's lifetime counts from a clock read after `compute` returned: answers are
  younger than it, counted from that return, if and only if the two coincide
  (`OrgTtlCache.AgeExactly`).
- The breaker counts failures since the last close, not consecutive ones, and half-open
  lets every caller through, not one probe (`CircuitBreaker.SuccessesDoNotReset`,
  `CircuitBreaker.HalfOpenAdmitsAll`).
- `verify_password` says it never raises; it does for a well-formed record whose
  algorithm or count the key derivation refuses (`PasswordRecords.RaisesExactly`,
  `PasswordRecords.ZeroCountRaises`).
- `verify_session_token` says it raises one kind of error; a character outside ASCII
  before the second dot escapes as another (`SessionTokens.EscapesExactly`,
  `SessionTokens.AccentedTokenEscapes`).
- The telemetry gap is called a correctness bound on writes; callbacks with no page
  completed are written however fast they come (`Telemetry.ZeroProgressIsNotThrottled`).
- The type printer turns every tuple into an array of its first member's type, a class
  named like a TypeScript word into that word, and a mapping over finitely many keys
  into a type that demands all of them (`TsMeaning.TupleKeptExactly`,
  `TsMeaning.NameKeptExactly`, `TsMeaning.MapKeptExactly`, `TsMeaning.ClosedMapIsLost`).
- The reference guard vouches for every class an annotation names if and only if each is
  printed, starts with a letter and is no TypeScript word (`TsGuard.CatchesAllExactly`,
  `TsGuard.LoneNameIsCaughtExactly`, `TsGuard.SecondMemberIsNotSeen`); and it always
  reports a boolean literal (`TsGuard.BooleanLiteralAlarms`).

## Model

| member | source | states |
|---|---|---|
| ProcessTree.DescendantPids | src/core/_process_orphans.py:159-173 | the walk returns every process whose parent chain reaches the root, each once, and nothing else |
| ProcessTree.EndsExactlyOffCycle | src/core/_process_orphans.py:166-173 | for any snapshot and root, the loop's frontier empties after some number of turns if and only if the root is on no parent cycle |
| ProcessTree.StepKeepsInv | src/core/_process_orphans.py:168-172 | one turn keeps: no repeats, only descendants, and every child of a popped process collected |
| ProcessTree.CycleNeverEmpties | src/core/_process_orphans.py:168-172 | from a root on a cycle, after any number of turns a process of a cycle is still waiting |
| Ledger.LedgerFile.Upsert | src/core/_process_ledger.py:110-136 | one job's entry is written or replaced; every other lookup and every position stays |
| Ledger.LedgerFile.Remove | src/core/_process_ledger.py:139-145 | one job's entry goes, the rest keep their order; nothing happens when it is already gone |
| Ledger.LedgerFile.Write | src/core/_process_ledger.py:89-107 | the whole ledger is replaced |
| Reconcile.KillsAreJustified | src/core/_process_orphans.py:202-280 | whatever is killed or reported is in reach of an entry for which, at its turn, the table held a readable process of that PID started within 0.001 s of the recorded time, and held no such process for a recorded supervisor |
| Reconcile.OrphanExactly | src/core/_process_orphans.py:79-101 | the checks of PID and start time amount to that condition on the table: a reused PID is neither an orphan nor a supervisor |
| Reconcile.TurnIsExactly | src/core/_process_orphans.py:229-277 | one entry's turn on the fields of the table: exactly which processes and Job Objects go, what is reported and in which order it starts, and whether the entry stays |
| Reconcile.SurvivesExactly | src/core/_process_orphans.py:225-280 | an entry stays if and only if, at its turn, its supervisor was so found, or it was such an orphan with no Job Object to reopen and nothing killable in its tree |
| Reconcile.SurvivorsAreItems | src/core/_process_orphans.py:227-279 | survivors come from the ledger, each job once, never more than there were |
| Reconcile.ReportedExactly | src/core/_process_orphans.py:218-222 | what an entry adds to the returned list is what it terminated if and only if its reopened Job Object holds its own process and no other running one |
| Reconcile.ReportCanMiss | src/core/_process_orphans.py:218-222 | an entry whose Job Object holds a second process, which is killed and not reported |
| Reconcile.ReportIsExact | src/core/_process_orphans.py:202-280 | the whole returned list is what the run terminated if and only if every process a Job Object turn reports is gone in the end and every running member it ends is reported by it or an earlier such turn |
| Reconcile.SecondRunIdleExactly | src/core/_process_orphans.py:202-280 | a second run ends, kills nothing and leaves the ledger equal if and only if the first left every survivor's protection alive |
| Reconcile.SecondRunCanKill | src/core/_process_orphans.py:79-101 | a two-entry ledger on which the second run kills |
| Reconcile.EndsExactly | src/core/_process_orphans.py:225-280 | run with every walk bounded, the routine ends within some bound if and only if each entry whose tree it walks is, at its turn, on no parent cycle; entries that are spared, gone, not ours or killed through their job may be on one. What it then did is what the other theorems speak of |
| Reconcile.UnkillableStays | src/core/_process_orphans.py:176-199 | kills elsewhere never make an unkillable entry killable, so its entry keeps surviving |
| Reconcile.ProcessTable.KillViaNamedJobObject | src/core/_process_orphans.py:104-120 | terminates exactly the members of a job that reopens and reports whether it did |
| Reconcile.ProcessTable.Sweep | src/core/_process_orphans.py:184-199 | terminates and returns exactly the targets that can be terminated, in their order; one refusal stops nothing |
| Reconcile.ProcessTable.KillViaProcessTree | src/core/_process_orphans.py:176-199 | the same for the root and its descendants in one snapshot taken before the first kill |
| Reconcile.ReconcileEntry | src/core/_process_orphans.py:229-277 | the loop body takes the branch, the kills and the survival its specification gives an entry |
| Reconcile.ReconcileOrphans | src/core/_process_orphans.py:202-280 | process table, returned list and rewritten ledger are those of the specification the lemmas above are about |
| Admission.ApiState.TryReserve | src/api/server.py:1099-1130 | on its fields: grants if and only if fewer than all slots are taken, the facet is known and fewer than its cap are taken under it; tells an unknown facet from a full server; claims slot, facet slot and a new unset event together or changes no claim |
| Admission.ApiState.Release | src/api/server.py:1132-1152 | drops one id from all three collections and touches no other |
| Admission.ApiState.Rekey | src/api/server.py:1154-1176 | moves one id in all three collections; the event object itself moves |
| Admission.ApiState.Cancel | src/api/server.py:3961-3967 | sets exactly that job's event and only then drops its slot |
| AdmissionRuns.RunsKeepInv | src/api/server.py:1099-1186 | every step of every interleaving keeps in agreement: claims and slots, the caps, who holds what, which event belongs to which claim, the order of the event loop's queue, the executor's thread count |
| AdmissionResults.ReservesExactly | src/api/server.py:1110-1130 | in every run a new provisional id gets a claim if and only if there is room in all and under a known facet; granted, it gets an event no claim ever had and nobody has set; refused, nothing changes |
| AdmissionResults.EveryRunCanRest | src/api/server.py:1334-1343 | no run can be wedged: with at least one thread some continuation ends every admission and dispatch, and leaves only the slots of dead handlers |
| AdmissionResults.JobAdvances | src/api/server.py:1334-1343 | a dispatch whose turn has come always goes on, and its `finally` always gives the slot back |
| AdmissionResults.RequestAdvances | src/api/server.py:3941-3968 | a cancel or delete goes on exactly after a check that passes, and its last turn frees the slot and deletes the record as its kind says |
| AdmissionResults.DeletedStays | src/api/server.py:3941-3946 | a deleted record stays deleted in every continuation |
| AdmissionResults.SlotsAgreeInEveryRun | src/api/server.py:1099-1176 | in every run `_active` is the disjoint union of the facet sets, equals the keys of `_cancel_flags`, and no cap is exceeded |
| AdmissionResults.HoldersInEveryRun | src/api/server.py:1984-2017 | a slot is always held by an admission between reserve and rekey, by one whose handler died there, or by a job before its `finally`; the first two, and jobs before their first turn, always hold theirs |
| AdmissionResults.NoSlotLeaksExactly | src/api/server.py:1984-2010 | with nothing in flight every slot set and flag map is empty, after any store failures, cancels and deletes, if and only if no slot was reserved for a Screaming Frog job whose normalised URL is over the limit |
| AdmissionResults.QuietHoldsStranded | src/api/server.py:1994-2010 | with nothing in flight the slots held are exactly those of handlers that died between reserve and `try` |
| AdmissionResults.StrandedBlocksFacet | src/api/server.py:1112-1120 | on a facet capped at one, such a slot makes every later reservation, of any kind and in every continuation, change nothing |
| AdmissionResults.LongUrlStrands | src/api/server.py:1994-1998 | a two-step run that ends quiet with a slot held: a request of exactly 2048 characters with an empty path |
| SeedUrl.GrowsExactly | src/core/url_safety.py:345-348 | normalising lengthens a URL, by one character, if and only if its path is empty and no default port, empty query or fragment is dropped |
| SeedUrl.NormalizedIsCanonical | src/core/url_safety.py:345-348 | normalising writes out the canonical parts, and normalising again changes nothing |
| SeedUrl.TooLongExactly | src/modules/seo/screaming_frog_control/schemas.py:267 | so a request within its own limit passes the input model's limit if and only if it is exactly that long and grows |
| AdmissionResults.LateReleaseIsHarmless | src/api/server.py:1340-1343 | a second release of a job changes no slot, so it frees none that another job has since taken |
| AdmissionResults.RekeyHandsOver | src/api/server.py:2436-2437 | at its call site in every run the provisional id holds slot and event and the stored id neither; the slot and that very event pass to the stored id, nothing else moves and no count changes |
| AdmissionResults.EventsAreReserved | src/api/server.py:1121-1130 | in every run a job's event is the one its own reservation made |
| AdmissionResults.BeginPrecedesCancel | src/api/server.py:3941-3967 | no cancel or delete handler goes on about a job whose dispatch has not had its first turn |
| AdmissionResults.DispatchIsHandedItsEvent | src/api/server.py:1329-1341 | every crawl whose dispatch began watches its own event, the one under its id while it holds its slot: the fallback to a fresh event is never taken |
| AdmissionResults.SignalledExactly | src/api/server.py:3961-3966 | a job's event is set in a run if and only if some cancel, or delete of a running job, found it holding its slot |
| AdmissionResults.CancelReachesCrawlExactly | src/api/server.py:1334-1343 | the event a crawl thread watches is set if and only if some cancel or delete found the slot held |
| AdmissionResults.ThreadsHoldOrDrain | src/api/server.py:1399-1410 | live crawl threads are within the executor's size, those that hold slots within the cap, and every other one lost its slot to a cancel or delete |
| AdmissionResults.ThreadsCanFillTheExecutor | src/api/server.py:3961-3967 | the slots themselves bound holders, not threads: even with one slot there are runs with any number of live crawl threads up to the executor's size |
| BoundedGzip.GunzipCapped | src/core/bounded_gzip.py:67-94 | for every body, cap and chunk size: the expansion and its digest if the body is one complete member within the cap, else the right refusal; too large is answered only when some series of calls got more than the cap out of the body |
| BoundedGzip.InflateChunk | src/core/bounded_gzip.py:75-83 | feeding one chunk ends, always with a limit of at least one; output and digest stay over the same bytes within the cap, and never more than one byte past it is inflated |
| BoundedGzip.Append | src/core/bounded_gzip.py:97-102 | a piece is refused exactly when it would pass the cap; otherwise stored and hashed |
| BoundedGzip.MeaningOfMore | src/core/bounded_gzip.py:84-88 | what a beginning of the body determined still holds of the whole body |
| BoundedGzip.OverflowIsReal | src/core/bounded_gzip.py:97-99 | output past the cap at any point means the whole body is too large or broken |
| BoundedGzip.ChunkingDoesNotMatter | src/core/bounded_gzip.py:73-74 | runs the inflater twice over one body with any two chunk sizes: both accept exactly the complete members within the cap with the same bytes and digest, and refuse alike, up to which refusal a body that is no gzip gets |
| BoundedGzip.LiteralEngineIsLawful | src/core/bounded_gzip.py:67-79 | a concrete machine obeys the law the inflater is assumed to obey |
| OrgTtlCache.RunsKeepInv | src/api/crawl_activity.py:97-115 | every step of every thread interleaving keeps the guard, the org locks and their holders, entries, clock reads, computes and answers in agreement |
| OrgTtlCache.OrgsShareLocksExactly | src/api/crawl_activity.py:104-106 | past `setdefault` two threads have the same lock if and only if they asked for the same org |
| OrgTtlCache.ValuesAreFresh | src/api/crawl_activity.py:107-115 | a value handed out came from a compute for the same org, the caller's own or one stamped less than the lifetime before the caller's clock read |
| OrgTtlCache.SingleFlight | src/api/crawl_activity.py:104-112 | two threads past the lock are never working for the same org |
| OrgTtlCache.NeverDeadlocks | src/api/crawl_activity.py:104-115 | while any thread is inside, in any interleaving, some thread can take its next step |
| OrgTtlCache.ComputesAreBounded | src/api/crawl_activity.py:97-115 | an org starts at most T / ttl + 1 computes over any T seconds, in flight ones included, plus those that raised |
| OrgTtlCache.Cache.Get | src/api/crawl_activity.py:106-115 | one caller's view: a live entry is answered as it is; otherwise the computed value is answered and stored with its deadline, and an exception stores nothing |
| OrgTtlCache.SoloCallIsGet | src/api/crawl_activity.py:97-115 | run alone, the interleaved steps do to the table, and answer, what that one call does, and leave every lock free |
| OrgTtlCache.AgeExactly | src/api/crawl_activity.py:112-114 | for every compute a run stores: all answers any continuation reads from it are younger than the lifetime, counted from when it returned, if and only if the clock read its deadline is counted from was taken at that moment |
| OrgTtlCache.AgeIsBounded | src/api/crawl_activity.py:107-114 | an answer is always younger than the lifetime plus the time the storing thread was held up |
| TsTypes.Unique | scripts/export_ui_contract.py:211 | de-duplication keeps every text once, and none is lost |
| TsTypes.SupportedExactly | scripts/export_ui_contract.py:167-240 | an annotation prints if and only if no part visited on the way, of a tuple only its first member, is without a mapping |
| TsTypes.UnionPrints | scripts/export_ui_contract.py:211 | a union, and a literal, prints the texts of its arguments once each, in the order of first occurrence |
| TsTypes.PrintsToTheLetter | scripts/export_ui_contract.py:213-228 | a list of an optional number and a mapping to numbers, character by character |
| TsParser.StringReads | scripts/export_ui_contract.py:237 | a printed string literal reads back as the same characters, for every UTF-16 text |
| TsMeaning.ArrayPrinted | scripts/export_ui_contract.py:213-220 | brackets bind to the whole element type: the test for a bar in the text misses no union |
| TsMeaning.Prints | scripts/export_ui_contract.py:167-240 | whatever bounded text follows a printed type, it reads as itself |
| TsMeaning.PrintedTextParses | scripts/export_ui_contract.py:167-240 | every supported annotation in which no class is named by a keyword prints as text that reads as one type |
| TsMeaning.PrintingPreservesMeaning | scripts/export_ui_contract.py:167-240 | the type read back accepts exactly the JSON values the annotation denotes, through unions, de-duplication, arrays of unions, open mappings, literals and `Annotated` |
| TsMeaning.TupleKeptExactly | scripts/export_ui_contract.py:213-220 | a tuple keeps its meaning if and only if it is `tuple[X, ...]` |
| TsMeaning.NameKeptExactly | scripts/export_ui_contract.py:189-194 | a class name reads as a class and keeps its meaning, whatever the class is, if and only if TypeScript neither reserves nor predefines it |
| TsMeaning.MapKeptExactly | scripts/export_ui_contract.py:226-228 | a mapping of faithful parts keeps its meaning, whatever the classes stand for, if and only if its key type requires no key: `Record` demands every key of a literal or enum, a dict does not |
| TsMeaning.ClosedMapIsLost | scripts/export_ui_contract.py:226-228 | `dict[Literal["a"], int]` is such a mapping |
| TsGuard.Identifiers | scripts/export_ui_contract.py:293-298 | the successive replacements and the split give the longest stretches without white space, a separator or a `[]` that start with a letter and hold no quote |
| TsGuard.TokensExactly | scripts/export_ui_contract.py:293-298 | the same of the token function the other theorems are about, for every text |
| TsGuard.AssertNoDanglingReferences | scripts/export_ui_contract.py:301-322 | passes if and only if every field is printable, in the sense of `SupportedExactly`, and closed; otherwise names a model, field and token at fault |
| TsGuard.TokensExplained | scripts/export_ui_contract.py:293-298 | a token TypeScript does not define is a printed class name or cut out of a literal, and every printed class name that starts with a letter is a token |
| TsGuard.GuardIsSound | scripts/export_ui_contract.py:301-322 | when the guard passes, every printed class name is emitted, unless it starts with an underscore or is a TypeScript word |
| TsGuard.GuardIsExact | scripts/export_ui_contract.py:301-322 | a field passes if and only if it is printable, its printed names are emitted, TypeScript words or start with no letter, and everything its literals are cut into is known |
| TsGuard.NoFalseAlarm | scripts/export_ui_contract.py:301-322 | on literals free of spaces and separators the names alone decide: no false alarm and no other miss |
| TsGuard.CatchesAllExactly | scripts/export_ui_contract.py:293-322 | passing the guard means that every class named anywhere in an annotation is emitted, if and only if each of them is printed, starts with a letter and is no TypeScript word; for literals that can be cut up, if and only if each is a token of its own |
| TsGuard.LoneNameIsCaughtExactly | scripts/export_ui_contract.py:298 | a class by itself is caught if and only if it starts with no underscore and is no word the guard takes for TypeScript's |
| TsGuard.SecondMemberIsNotSeen | scripts/export_ui_contract.py:216-219 | a class named only after a tuple's first member is not caught, whatever its name |
| TsGuard.BooleanLiteralAlarms | scripts/export_ui_contract.py:237 | a boolean literal is reported unless something emitted is called `true` or `false` |
| CircuitBreaker.CircuitBreaker.RecordFailure | src/core/circuit_breaker.py:56-72 | a failure moves the object to the next state of the history function `StateIsHistory` characterises, and changes nothing else |
| CircuitBreaker.CircuitBreaker.RecordSuccess | src/core/circuit_breaker.py:74-88 | a success does the same: it closes a half-open breaker and leaves any other as it was |
| CircuitBreaker.CircuitBreaker.IsOpen | src/core/circuit_breaker.py:90-109 | answers whether the call is refused, and moves an open breaker whose timeout has passed to half-open |
| CircuitBreaker.CircuitBreaker.CurrentState | src/core/circuit_breaker.py:111-119 | reading the state can itself open a probe: it makes the same move |
| CircuitBreaker.StateIsHistory | src/core/circuit_breaker.py:56-119 | state, count and last failure time are what the events since the last close say, defined without a breaker |
| CircuitBreaker.ClosedIsBelowThreshold | src/core/circuit_breaker.py:65-68 | closed means fewer failures than the threshold since the last close, whatever successes came between, and open or half-open means that many |
| CircuitBreaker.RefusesExactly | src/core/circuit_breaker.py:100-109 | calls are refused if and only if the breaker tripped, let no probe through since the latest failure, and that failure is less than the timeout ago |
| CircuitBreaker.RecoversInTwo | src/core/circuit_breaker.py:74-106 | from any tripped history one query after the timeout and one success close the breaker with a zero count |
| CircuitBreaker.HalfOpenAdmitsAll | src/core/circuit_breaker.py:98-109 | half-open answers any number of queries alike until an outcome is recorded |
| CircuitBreaker.SuccessesDoNotReset | src/core/circuit_breaker.py:82-88 | with any successes between them, the threshold-th failure opens the breaker and no earlier one does |
| Base64Url.PaddingRestored | src/core/auth.py:176-182 | stripping the padding and adding back what the length asks for is the identity, and the alphabet has no dot and no pad |
| Base64Url.RoundTrip | src/core/auth.py:176-182 | decoding undoes encoding on every byte string |
| Base64Url.EncodesSixBits | src/core/auth.py:176-177 | encoding writes six bits a symbol from the front, the last filled up with zeros, and as many symbols as that takes |
| Base64Url.DecodesExactly | src/core/auth.py:180-182 | a text of alphabet symbols decodes unless its length is one more than a multiple of four, to three bytes for four symbols |
| Base64Url.NoiseIsSkipped | src/core/auth.py:180-182 | the decoder passes over characters outside the alphabet |
| Text.HexRoundTrip | src/core/auth.py:154-169 | reading hexadecimal undoes printing it |
| SessionTokens.SignedIsJudgedOnClaims | src/core/auth.py:231-262 | a token framed and signed under the same key is judged on its claims alone |
| SessionTokens.IssuedTokensVerify | src/core/auth.py:185-262 | an issued token gives back the operator's id and org exactly while now is at most issue time plus lifetime, truncated; the reported expiry is that sum |
| SessionTokens.IssuedTokenCarries | src/core/auth.py:199-216 | part by part: the header, the claims with operator, org, truncated issue time and truncated expiry, and the MAC of both |
| SessionTokens.AcceptedMeansSigned | src/core/auth.py:231-246 | an accepted token has exactly two dots and carries its first two parts' MAC under this key |
| SessionTokens.AcceptedExactly | src/core/auth.py:231-262 | a token is accepted if and only if it is three parts under its own key's MAC whose payload holds an expiry that has not passed and two well-formed ids, and the principal is those ids |
| SessionTokens.EscapesExactly | src/core/auth.py:235-238 | a three-part token escapes with an undocumented exception if and only if one of its first two parts is not ASCII |
| SessionTokens.AccentedTokenEscapes | src/core/auth.py:235-238 | a token that does, under every key and at every time |
| PasswordRecords.RecordsRoundTrip | src/core/auth.py:150-169 | a stored record reads back as the algorithm, count, salt and digest it was made from |
| PasswordRecords.VerifiesExactly | src/core/auth.py:142-173 | the original password is accepted, and any other if and only if it derives the same key |
| PasswordRecords.VerifyDecides | src/core/auth.py:164-173 | verification of any text: rejected, raising, or accepted exactly when the password derives the stored digest from the stored salt under the record's own algorithm and count |
| PasswordRecords.RecordsVerify | src/core/auth.py:142-173 | a record spelled with any algorithm, count, salt and digest is judged under those, not under the present count |
| PasswordRecords.RejectedExactly | src/core/auth.py:164-171 | a text parses if and only if it has exactly three `$`, an integer in the second field and hexadecimal in the last two; any other is rejected whatever the password |
| PasswordRecords.IntTextExactly | src/core/auth.py:166 | `int` reads a text if and only if it is digits, with single underscores between them, a sign before and blanks around them |
| PasswordRecords.IntIsNumber | src/core/auth.py:166 | and then to the number its digits and sign spell |
| PasswordRecords.HexTextExactly | src/core/auth.py:168-169 | `bytes.fromhex` reads a text if and only if it is pairs of hexadecimal digits with blanks only between pairs and around them |
| PasswordRecords.HexIsSpelled | src/core/auth.py:168-169 | and then to the bytes its digits spell two by two |
| PasswordRecords.RaisesExactly | src/core/auth.py:164-173 | verification raises if and only if the text is a four-field record whose algorithm is not one the derivation knows or whose count is outside 1 to 2^31 - 1 |
| PasswordRecords.ZeroCountRaises | src/core/auth.py:172 | a four-field record with a zero count that makes it raise |
| Telemetry.TelemetryRecorder.UpdateRate | src/api/server.py:425-439 | ties the fields to the value fold that `RateIsBetween`, `StepResponse` and `RecorderAddsUp` are about; a sample under the 50 ms gate changes nothing |
| Telemetry.TelemetryRecorder.TakeSnapshot | src/api/server.py:441-459 | ties the written figures to the function `SnapshotsAreSane` is about, and changes no field |
| Telemetry.TelemetryRecorder.Record | src/api/server.py:407-423 | one callback samples first, then writes if and only if it reports no page or the gap has passed; what it writes is the snapshot after its own sample |
| Telemetry.RateIsBetween | src/api/server.py:425-439 | over every callback sequence the rate is between the smallest and largest accepted sample, and zero before the first |
| Telemetry.StepResponse | src/api/server.py:432-437 | each steady sample closes 30 % of the distance to it, so n of them leave 0.7 to the n |
| Telemetry.SeedsFromZero | src/api/server.py:432-437 | from a rate of zero a sample is taken whole |
| Telemetry.RecorderAddsUp | src/api/server.py:425-439 | while the count does not fall, the samples times their intervals add up to the last accounted count |
| Telemetry.SnapshotsAreSane | src/api/server.py:441-459 | the count is the callback's and the rate the smoothed one; total is at most discovered and ceiling; the ETA is offered exactly when warm, moving and non-empty, is never negative, and is the time the rest takes at the rate shown |
| Telemetry.WritesExactly | src/api/server.py:412-414 | in every run a callback is written if and only if it reports no page or comes half a second or more after the latest write |
| Telemetry.ProgressWritesAreBounded | src/api/server.py:412-414 | over any T seconds of any run at most 1 + T / 0.5 writes report progress |
| Telemetry.ZeroProgressIsNotThrottled | src/api/server.py:412-413 | a callback repeated at once is written again if and only if it reports no page |
| Checkpoint.CrawlCheckpointer.Save | src/api/server.py:301-317 | writes if and only if the graph is not empty and 10 s or 100 URLs have accrued; afterwards fewer have |
| Checkpoint.WritesExactly | src/api/server.py:301-317 | in every run a call writes exactly when it is due, counted from the last write of the history; an empty graph never is |
| Checkpoint.LossIsBounded | src/api/server.py:301-317 | after every call on a non-empty graph, less than 10 s and less than 100 URLs separate it from the last write, looked up in the history |
| Checkpoint.WritesAreBounded | src/api/server.py:304-314 | for a growing graph, writes over T seconds and N URLs number at most 1 + T/10 + N/100 |
| Checkpoint.CheckpointSources | src/api/server.py:355-375 | flags are read index by index, or refused all together on a wrong length or an unknown letter |
| Checkpoint.FlagsRoundTrip | src/api/server.py:350-375 | reading a written list gives back the same list for its own length and `None` for any other |
| Checkpoint.ResumePartitions | src/api/server.py:4143-4186 | seeds and exclusions are disjoint, and cover exactly the discovered URLs if and only if every unfetched one was discovered |
| Checkpoint.ResumeExactly | src/api/server.py:4143-4186 | for whatever the checkpoint holds: refused without a list of what was left, told apart from a list with no URL; else the seeds are its URLs and the exclusions the discovered URLs that are no seed, each in order and as often as listed |
| Checkpoint.ResumeContinues | src/api/server.py:4156-4186 | for the lists a checkpoint holds, seeds are the unfetched URLs and exclusions the rest, in order |
| Deliverables.BuildSlots.TryReserve | src/api/server.py:1203-1221 | claims a build slot if and only if one is free |
| Deliverables.StartBuild | src/api/deliverables_routes.py:171-223 | which of its three outcomes it takes, by slots and store; only acceptance keeps a slot and the bundle, the other two give back both |
| Deliverables.BuildFromScreamingFrog | src/api/deliverables_routes.py:415-445 | unless the build is accepted the request leaves neither a slot nor a file |
| Deliverables.DispatchBuild | src/api/deliverables_routes.py:145-168 | slot and bundle are given back however the build ends |
| Deliverables.RunsKeepInv | src/api/deliverables_routes.py:145-223 | in every interleaving slots and files are exactly what requests own, one owner each, within the cap |
| Deliverables.RefusedExactlyWhenFull | src/api/deliverables_routes.py:193-206 | at most the cap of requests hold slots, and an admission is refused if and only if that many do |
| Deliverables.BundleOutlivesBuild | src/api/deliverables_routes.py:411-442 | while a build runs its bundle exists, whatever other requests do |
| Deliverables.NothingLeaks | src/api/deliverables_routes.py:154-168 | once every request was refused or has cleaned up, no slot and no file is left |
| Deliverables.EveryRunCanSettle | src/api/deliverables_routes.py:154-223 | no run can be wedged: some continuation settles every request and leaves no slot and no file |
| Deliverables.SecondUnlinkIsHarmless | src/api/deliverables_routes.py:443-445 | the route's second unlink removes nothing, even after other requests drew new bundles |
| Deliverables.StepsAreStartBuild | src/api/deliverables_routes.py:192-223 | the interleaved steps in a row do what the handler does, refusal by refusal |
| Deliverables.StepsAreDispatchBuild | src/api/deliverables_routes.py:154-168 | so do those of the `finally` |

## Left out

- FastAPI routing, headers, status text, validation, logging and CORS: plumbing.
- Worker dispatch, uploads, the job password gate and local sign-in: the store and limiter they rest on are not part of this model.
- The final status of a cancelled job: the store has no terminal-state guard, so none is claimed.
- Real zlib, HMAC, PBKDF2, JSON and the Windows API: given by laws or as functions; JSON parsing is taken to undo printing on issued claims.
- The temporary-file dance of `write_ledger`, `read_ledger`'s tolerance of bad files and `DiskOperatorStore`: file I/O.
- Ledger edits by other threads during a reconciliation, and processes starting or exiting on their own while it runs: it is one startup step over a table only it changes.
- Reconcile.ReconcileOrphans: requires `Walkable`, which `Reconcile.EndsExactly` proves to be exactly when the routine ends; a run that does not end is not modelled as a method.
- ProcessTree.DescendantPids: requires the root to be off a parent cycle, for the same reason.
- BoundedGzip.GunzipCapped: caps below zero are not modelled; the callers pass positive constants.
- BoundedGzip.GunzipCapped: for a body that is not gzip at all it says only that it is refused, because which of the two errors comes first depends on the inflater.
- AdmissionRuns.RunsKeepInv: store creation, rekey and task creation are one step, because nothing is awaited between them; the order in which the executor serves its waiters, idle workers, and steps of threads other than crawls and password checks are not modelled.
- SeedUrl.TooLongExactly: requires a host that normalising keeps as long as it was; a longer one from IDNA only makes more URLs too long, and `AdmissionResults.NoSlotLeaksExactly` covers those too.
- OrgTtlCache.Cache.Get: takes no locks and is given its clock reads and the compute's answer; the locks are in the interleaved steps, and `OrgTtlCache.SoloCallIsGet` ties the two.
- The scans `CrawlActivityCounter` caches are a value here: they count records of a store that is not part of this model.
- Telemetry.SnapshotsAreSane: written figures are not rounded, and `recent_items` and timestamps are left out.
- Telemetry.ProgressWritesAreBounded: the store call happens outside the lock, so out-of-order writes are not modelled.
- PasswordRecords.RecordsRoundTrip: `int` and `bytes.fromhex` are modelled on ASCII text, and the interpreter's limit on very long digit strings is not.
- SessionTokens.IssuedTokensVerify: an expiry claim that is NaN or infinite is not modelled.
- TsMeaning.PrintingPreservesMeaning: numbers are JSON numbers and datetimes JSON strings on both sides; which texts spell a class or number key is given per reading, and excess properties are not refused.
- TsGuard.GuardIsSound: speaks of names that are printed, and takes class names to be ASCII identifiers; `TsGuard.CatchesAllExactly` is about every name.
- `render_enum`, `render_model`, `_screaming_snake` and the colour map: string assembly without a hard property.
- Deliverables.NothingLeaks: a worker task cancelled by a shutdown, and exceptions outside `Exception` from the store, end the process and are not steps.
- Masterfile builds follow the same saga without a bundle and are the case of a request with none.
