# Verification of the agent operating system's trust-bearing code

A Dafny model of the parts of the system whose correctness spans several functions: the hash-chained
audit log, the approval queue, exact numbers on the wire, the in-tree SHA-256 and HMAC, the SDK's MCP
runtime and argument resolver, object references, the argv canonicaliser, and workspace checkpoints.
`dafny verify dfyconfig.toml` checks everything.

| file | what it models |
|---|---|
| `AuditLog.dfy`, `AuditRules.dfy`, `AuditRuns.dfy` | the append-only log, its head file, archives and recovery; what verification asks, field by field; runs of appends with crash points |
| `Approvals.dfy`, `ApprovalRules.dfy`, `ApprovalQueue.dfy`, `GrantStore.dfy` | approval records and liveness, the rules they come to written out, the queue as concurrent processes with crashes, spending grants singly and in sets |
| `InvocationDrop.dfy`, `EndedInvocation.dfy` | the two-flag race at the end of an invocation, and that end over the queue |
| `Decimals.dfy`, `WireNumbers.dfy`, `WireRules.dfy` | digit strings and powers of ten; JSON number lexemes (section 6 of RFC 8259), the three emitted integer decoders and their limits, comparison, and the canonical numeric key |
| `Sha256.dfy`, `Sha256Standard.dfy` | FIPS 180-4 and RFC 2104 as recursive definitions, and the streaming hasher over them; the constants and functions by what they are, and the standard's one-block example |
| `McpArguments.dfy`, `McpSchema.dfy`, `McpRules.dfy` | argument declarations and resolution, the advertised JSON Schema, and the rules for declarations spelled out |
| `McpRuntime.dfy`, `RuntimeRules.dfy` | the bounded reader and worker protocol, and what it makes of a frame and a cancellation |
| `ObjectRefs.dfy`, `ObjectSpelling.dfy` | the printer and parser of `app://` references, and their letters |
| `OperationArgv.dfy`, `OperationBinding.dfy`, `BinderMeaning.dfy` | canonical argv and re-reading it; the authority's binder; what the binder makes of any argv |
| `LaunchApprovals.dfy` | waiting for a launch's approvals |
| `Checkpoint.dfy`, `CheckpointRules.dfy` | checkpoint create, rollback, copy and list, stopping at any step; names and ids |

Code that updates state in place is a class or a method with loops, proved against a function of the
old state; concurrent protocols are step machines whose steps are the regions the locks, renames and
atomics make indivisible. A crash is a stop between two steps, and a torn write or a half-done
deletion leaves any part behind.

## Findings

Places where the code does less than its documentation or its evident purpose promise.
Each is a lemma with the exact condition or a concrete witness.

- claw-os-sdk/go/generated.go:524-525, claw-os-sdk/wire/codegen.py:825-855. The Go and Python integer decoders
  replace an exponent of more than 18 digits by a fixed one, so an integer spelled with 10^18 or more digits can
  be refused or misread. Go is exact below that length; the Rust decoder is exact for every lexeme under 2^61
  characters (`GoDecodeExactIff`, `GoRefusesALongInteger`, `RustDecodeExact`).
- claw-os-sdk/wire/codegen.py:838, claw-os-sdk/wire/codegen.py:845-852. The Python decoder passes texts of any
  length to the interpreter's integer constructor, which since 3.10.7 raises on more than 4300 digits unless it is
  told otherwise. On an integer of more digits than the limit written with a point, or an exponent written with
  that many digits, validation raises where Go and Rust answer; everywhere else below 10^18 digits Python answers
  as Go does (`PythonDecodeIff`, `PythonRaisesOnALongInteger`, `BoundedAnswers`).
- core/src/audit.rs:494-548. The audit log heals after an interrupted append unless the line was whole but for its
  newline, in which case the next append is glued to it, or was torn inside a multi-byte character, in which case
  every later append is refused (core/src/audit.rs:738-740) until an operator archives or quarantines, and only
  quarantine gives a log that verifies; the very first append heals in fewer cases (`RetryHealsIff`,
  `NotUtf8Refuses`, `TornCharacterNeedsQuarantine`, `FirstAppendHealsIff`).
- core/src/audit.rs:434-444. A log marked invalid verifies again after one torn append and one completed one,
  because tail recovery looks at the lines and the head but not at the archive link; quarantine
  (core/src/audit.rs:273-353), in turn, cannot clear a log whose own lines are sound but whose link is not
  (`TornAppendLaundersTaint`, `QuarantineClearsIff`).
- core/src/audit.rs:355-408. A log with a bad line is mended by appends alone in one odd case beyond legacy
  migration and torn tails: sound lines followed by a copy, without its newline, of the event second or third
  from their end. The next append is glued to the copy, and when it signs what followed the original, the head
  it writes makes the glued line look torn (`CorruptionIsStickyIff`, `ReplaysIff`, `UnterminatedReplayEscapes`).
- core/src/approvals.rs:751, core/src/approvals.rs:1668, core/src/approvals.rs:1924-1968. The marker that revokes an
  execution is written without the store lock, and a spend does not look at it again, so a redeemer that has
  already loaded a grant still hands it out. That is the only way, it happens at most once, and not after the
  lock has next been free or held idle; raising a generation (core/src/approvals/generations.rs:279) has no such
  gap (`RevokedRedeemedIff`, `RevokedInFlight`, `AtMostOneAfterRevocation`, `RaisedNeverRedeemed`).
- claw-os-sdk/go/mcp.go:1272-1294, claw-os-sdk/go/mcp.go:1587-1594. The advertised schema and dispatch differ
  whenever a condition holds of its source's default, or compares a list of numbers, which dispatch compares
  spelling by spelling (`SchemaAgreesIff`).
- core/src/bridge.rs:1658-1765. A flag name may contain an equals sign, be empty, or spell the same option as
  another name; re-reading a canonical argv then loses or gains positionals (`ReadsBackIff`,
  `UnderscoreShadowsDash`). The authority's binder (core/src/caps/args.rs:34-108) also refuses an argv whose
  positionals include a single-dash token and no double-dash one, and would bind a value to the wrong name over a
  gap, which the manifest rules out (`BinderRecoversIff`, `GapMisbinds`, `ManifestLeavesNoGap`).
- core/src/checkpoint.rs:626-632. A rollback first deletes what an earlier one moved aside. When that one stopped
  between its two renames this is the only copy of the workspace, and a create or a remount in between
  (core/src/checkpoint.rs:77-79) puts an empty upper in its place without saving it (`RunSafeIff`,
  `RetryCanLoseWorkspace`, `FreshUpperHidesPending`).
- core/src/checkpoint.rs:733-775. A checkpoint whose tree holds a device node, which is how the overlay records a
  deletion, cannot be restored (`CreateThenRollback`).
- core/src/checkpoint.rs:442. The id counter wraps at 32 bits, after which a new id may name an older checkpoint
  too (`FreshIdUniqueIff`, `WrappedIdAmbiguous`).

## Assumptions

Hash functions, the capability catalog and the scope canonicaliser are parameters; only tamper evidence
needs the two audit digests to be injective. Fresh identifiers, nonces and archive names are fresh.
Renames and atomically written files are indivisible; a lock is mutual exclusion. The clock and the
revocation state only move forward, and one scan of the store sees one instant.
Writing a revocation marker succeeds; the code logs or ignores a failure (core/src/approvals.rs:358-366,
core/src/approvals.rs:513). Checkpoint operations run one at a time: only create takes a lock
(core/src/checkpoint.rs:437), so nothing is said of a rollback beside another operation.

## Model

| member | source | states |
|---|---|---|
| AuditLog.VerifyChainBytes | core/src/audit.rs:979-1072 | the verifier's loop accepts a file exactly when its counting lines are signed events numbered from one, each linked to its predecessor from genesis, under one chain id |
| AuditLog.ScanMeaning | core/src/audit.rs:979-1072 | after any prefix the loop's report and expectations are the summary of a chain, or the prefix is not one |
| AuditLog.SignedParses | core/src/audit.rs:550-581 | a line the append path prepares is one the parser accepts with the sequence, link and digest it was given |
| AuditLog.SameTipSameChain | core/src/audit.rs:637-705 | two accepted chains ending in the same hash are equal event by event |
| AuditLog.TamperEvidence | core/src/audit.rs:834-977 | two stores that verify and end in the same hash agree on every event and on every archived file behind it |
| AuditLog.SameLinkSameHistory | core/src/audit.rs:1169-1216 | equal archive links lead to equal archived histories at every depth |
| AuditRules.VerifiesRule | core/src/audit.rs:834-977 | verification succeeds exactly with neither log nor head, or when the lines that count are signed one after the other from sixty-four zeros, the head names the last or the one before, and the link leads back through at most 64 different sound archives |
| AuditRules.TipRule | core/src/audit.rs:637-705 | a line is an event exactly when it is signed in format version one, numbered from 1 to 2^64 - 1, and names no predecessor if it is the first |
| AuditRules.LinkRule | core/src/audit.rs:1169-1216 | a link is good exactly when archives present under their digests lead from it to none, or to one set apart as legacy, torn or quarantined |
| AuditRules.LegacyRule | core/src/audit.rs:834-977 | a file is wholly legacy exactly when it has lines that count and all are objects without any chain field |
| AuditRules.TailRule | core/src/audit.rs:707-741 | the last line an append looks at is the last that is not empty |
| AuditRules.WriteRule | core/src/audit.rs:494-548 | a line written after an unterminated one joins it: harmless behind white space, otherwise no line the verifier knows |
| AuditRules.ArchiveRule | core/src/audit.rs:273-353 | archiving leaves alone, drops or keeps the file, under exactly the stated kind and behind a signed event that names it |
| AuditRuns.AuditStore.AppendChainedEvent | core/src/audit.rs:355-408 | an append, stopping at any crash point, takes the branch the last line calls for and leaves exactly the corresponding store |
| AuditRuns.AuditStore.RecoverInvalidTail | core/src/audit.rs:410-444 | recovery archives the file as torn when the lines before the tail verify and match the head, and as invalid otherwise |
| AuditRuns.AuditStore.CopyAndRestart | core/src/audit.rs:750-811 | the archive is written before the one-event chain that links to it, and the head last, at every crash point |
| AuditRuns.AuditStore.WriteChainedLine | core/src/audit.rs:494-548 | a line is written, terminated, then named by the head, each stop leaving what was done so far |
| AuditRuns.CrashLag | core/src/audit.rs:1074-1153 | over any run the head lags by the crashes since the last completed append, and verification succeeds exactly for an empty log, no lag, or one event of lag behind a real head |
| AuditRuns.CompletedAppend | core/src/audit.rs:355-408 | a completed append extends the lines by the next signed event and moves the head to it |
| AuditRuns.RetryHealsIff | core/src/audit.rs:494-548 | an interrupted append and a completed one verify again exactly when the first neither left a whole line without its newline nor tore it inside a character |
| AuditRuns.TornRetry | core/src/audit.rs:410-444 | after an append torn between characters the next one verifies exactly when the lines before the tear were a chain whose head matched; after one torn inside a character it never does |
| AuditRuns.NotUtf8Refuses | core/src/audit.rs:707-741 | over a last line that is not UTF-8 no append, however many are made and wherever they stop, changes anything |
| AuditRuns.TornCharacterNeedsQuarantine | core/src/audit.rs:273-353 | such a log is corrupt for good; an archive starts a chain that takes appends and never verifies, quarantine one that does |
| AuditRuns.FirstAppendHealsIff | core/src/audit.rs:461-492 | the first append ever heals exactly when it wrote nothing or its whole terminated line |
| AuditRuns.RotatedVerifies | core/src/audit.rs:834-977 | a freshly rotated log verifies exactly when its archive link does |
| AuditRuns.InvalidStays | core/src/audit.rs:979-1072 | lines that do not verify are not mended by any lines after them |
| AuditRuns.CorruptionIsSticky | core/src/audit.rs:273-444 | no run of appends and plain archives makes a corrupt or tainted log verify |
| AuditRuns.CorruptionIsStickyIff | core/src/audit.rs:273-444 | a log with a bad line fails to verify after every such run exactly when it is corrupt: not wholly legacy, its tail malformed or chained, neither torn over sound lines the head names nor an unterminated replay of them |
| AuditRuns.BadEarlierLineIsCorrupt | core/src/audit.rs:410-444 | a bad line before the last under a malformed or chained last line, with or without its newline, is such a log |
| AuditRuns.ReplaysIff | core/src/audit.rs:434-444 | under an injective hash such a replay is exactly an unterminated copy of the event second or third from the end of the sound lines |
| AuditRuns.UnterminatedReplayEscapes | core/src/audit.rs:355-408 | the replayed event without its newline is the case that must be set apart: two appends make it verify |
| AuditRuns.UnrecoverableFailsVerify | core/src/audit.rs:834-977 | a log with bad lines, or linked through archives to an invalid one, does not verify |
| AuditRuns.TornAppendLaundersTaint | core/src/audit.rs:434-444 | a torn append followed by a completed one makes a tainted log verify |
| AuditRuns.QuarantineClearsIff | core/src/audit.rs:273-353 | quarantine clears a failing log exactly when its own lines are at fault or the archives behind it were sound |
| AuditRuns.QuarantineCannotClearTaint | core/src/audit.rs:273-353 | a log whose lines are sound and whose link is tainted stays invalid after quarantine |
| Approvals.ReplacementMatchesIff | core/src/approvals.rs:468-500 | another worker may redeem it exactly when it is a live replacement in the same task that names the request, before both deadlines, with the first worker unrevoked and the generation unchanged |
| ApprovalRules.ApprovalMatchesIff | core/src/approvals.rs:435-500 | at any later moment an approval answers a demand exactly when it is for what was requested, eight hours or thirty days have not passed, and the redeemer is the worker that asked, within its lease and with its process still running, or one that takes the task over, with the first unrevoked and of its generation; or, for no agent's request, the generation is that of the approval |
| ApprovalRules.PutBackIff | core/src/approvals.rs:1003-1021 | an approval leaves a request pending exactly for a duration other than forever on a policy session, or, on an attended agent's request that stands, session or forever at critical risk and forever at high risk |
| ApprovalRules.ApprovedIff | core/src/approvals.rs:948-1001 | it is written as approved exactly when the request stands, field by field, the duration is not too long and the revocation state can be read |
| ApprovalRules.ApprovedFile | core/src/approvals.rs:541-557 | what is written: the request with its catalogued risk, one use or 512, for 28800 seconds or for 2592000 with forever, of the generation in force; no grant on a policy session |
| ApprovalRules.OtherwiseDenied | core/src/approvals.rs:1331-1506 | whatever is neither put back nor approved is denied without a grant |
| ApprovalRules.MatchMeansOneThing | core/src/approvals.rs:2342-2401 | of any file whatever, a match means uses and time are left, grant, request and demand agree in every field, and the execution stands |
| Approvals.SessionFloor | core/src/approvals/generations.rs:285-291 | the walk over session counters finds the largest one of the owner |
| Approvals.OwnerRevocationAdvances | core/src/approvals/generations.rs:282-304 | revoking an owner raises every generation of that owner, though session rows are dropped, and changes no one else's; it is refused exactly when one of them is at the 32-bit limit |
| ApprovalQueue.StepOrderly | core/src/approvals.rs:1331-1541 | every step of resolvers, invalidators, redeemers and crashes keeps each request in exactly the places its decision allows |
| ApprovalQueue.DecidedOnceNeverLost | core/src/approvals.rs:1331-1541 | in every interleaving each request is decided at most once and is always in pending, scratch, approved, denied or consumed |
| ApprovalQueue.StepThrifty | core/src/approvals.rs:1924-2318 | every step, of single redemptions and of sets, keeps spent plus remaining uses equal to the budget and hands out nothing unspent |
| ApprovalQueue.SpendBurns | core/src/approvals.rs:1924-1968 | a spend rewrites the file with fewer uses, or moves it out as it was when none is left |
| ApprovalQueue.RedemptionTakes | core/src/approvals.rs:1924-1968 | a redemption takes one use off the file, or all at once, and moves it out as it was when none is left |
| ApprovalQueue.DeathFreesLock | core/src/approvals.rs:1317-1329 | a process that dies holding the lock frees it and changes no file |
| ApprovalQueue.BudgetHolds | core/src/approvals.rs:1924-1968 | redemptions, singly or as part of a set, by the first worker and its replacements together, never exceed the budget of 1 or 512; approved files keep at least one use, and an attended critical approval is redeemed at most once |
| ApprovalQueue.SetCrashLeaves | core/src/approvals.rs:2290-2318 | a process that dies half way through a set has redeemed nothing: what it moved rests in consumed with every use it had, the rest is approved as before |
| ApprovalQueue.ConsumedForGood | core/src/approvals.rs:2403-2420 | a consumed file nobody is in the middle of redeeming stays there and is never redeemed again |
| ApprovalQueue.ApprovedIsRedeemableIff | core/src/approvals.rs:1331-1506 | from a claimed request, approving, loading, spending and handing out go through exactly while the worker that asked has lease left and is still the process it was, unless a request that is no agent's names a resumption deadline |
| ApprovalQueue.RunKeepsInvariants | core/src/approvals.rs:1317-1541 | both invariants hold after every run from an empty queue |
| ApprovalQueue.RevokedNeverRedeemed | core/src/approvals.rs:435-466 | from a moment at which no process carries one, no grant of a revoked execution or superseded generation is handed out again, even if old approved files are put back |
| ApprovalQueue.RaisedNeverRedeemed | core/src/approvals/generations.rs:277-320 | in every run a raised generation is final at once, because the raise holds the lock a redeemer needs |
| ApprovalQueue.SessionRevokedNeverRedeemed | core/src/approvals/generations.rs:305-320 | in every run, revoking a session ends every grant of it minted up to then |
| ApprovalQueue.RevokedRedeemedIff | core/src/approvals.rs:751-765 | a dead grant can still be handed out exactly when the lock holder already carries one |
| ApprovalQueue.AtMostOneAfterRevocation | core/src/approvals.rs:1664-1714 | after a marker at most one dead grant is handed out, the one that was being carried |
| ApprovalQueue.RevokedInFlight | core/src/approvals.rs:1924-1968 | whatever grant a redeemer loads, its execution can be revoked before the spend and the grant is still handed out |
| ApprovalQueue.RunLockHeld | core/src/approvals.rs:1924-1968 | in every run, old files put back or not, only the lock holder is between loading and handing out |
| InvocationDrop.RunSound | core/src/approvals.rs:352-368 | the two flags keep their meaning in every interleaving of one drop and any number of identity requests |
| InvocationDrop.EndedInvocationIsDead | core/src/approvals.rs:506-523 | an identity handed out implies the completed drop revokes it |
| InvocationDrop.EndedHandsOutNothing | core/src/approvals.rs:506-523 | once the end is stored no request that had not been handed the identity ever is |
| InvocationDrop.LateRequestRefused | core/src/approvals.rs:506-510 | a request that comes after the end is refused and leaves no trace |
| InvocationDrop.OvertakenRequestRevokes | core/src/approvals.rs:511-516 | one that finds the end after leaving its trace revokes the identity itself |
| InvocationDrop.ReloadIsNecessary | core/src/approvals.rs:506-523 | without the second load a request could outlive a drop that saw nothing to revoke |
| EndedInvocation.EndedInvocationStaysDead | core/src/approvals.rs:352-368 | over flags and queue together: when the drop is done an identity handed out is revoked, from the marker on at most one grant bound to it is handed out, and none once the marker's writer has held the lock to sweep |
| EndedInvocation.RunKeepsInv | core/src/approvals.rs:1664-1714 | marker, sweep and carried grants stay in step in every interleaving |
| GrantStore.Store.ResolveLocked | core/src/approvals.rs:1331-1506 | a resolver claims, decides as `PutBackIff`, `ApprovedIff` and `ApprovedFile` say, writes and cleans up; refusals put the request back and stale requests are denied |
| GrantStore.Store.ConsumeGrantSetOnce | core/src/approvals.rs:2257-2310 | succeeds exactly when the needed capabilities fit in the live exact grants, moving one distinct file for each, and otherwise moves nothing |
| GrantStore.LauncherTakes | core/src/approvals.rs:2257-2289 | a set is met only from files of its session and owner that carry no context, execution or digest |
| GrantStore.Store.FindUnclaimed | core/src/approvals.rs:2281-2283 | finds an unclaimed matching file if there is one |
| GrantStore.Store.MoveClaimed | core/src/approvals.rs:2291-2305 | moves every claimed file, or restores both directories when a rename is refused |
| GrantStore.Store.Rollback | core/src/approvals.rs:2312-2318 | moving back the files already moved restores both directories |
| GrantStore.Store.SpendGrant | core/src/approvals.rs:1924-1968 | one use or all are spent; the file is rewritten or moved out unchanged, and unusable records are left alone |
| GrantStore.StuckMeansUncovered | core/src/approvals.rs:2267-2289 | when the greedy choice finds nothing, no choice would have succeeded |
| GrantStore.AssignmentMeansCovered | core/src/approvals.rs:2267-2289 | a complete claim shows the requirement fits in the grants |
| WireNumbers.WireExactInteger | claw-os-sdk/go/generated.go:489-553 | the Go loop decodes a lexeme as the decoding function says |
| WireNumbers.WireExponent | claw-os-sdk/go/generated.go:519-532 | the exponent is the written one or a fixed one beyond 18 digits |
| WireRules.ExponentRule | claw-os-sdk/wire/codegen.py:381-427 | an exponent of magnitude 10^18 or more becomes 2^62 in Go and 10^19 in Python, and one beyond 64 bits the nearest 64-bit integer in Rust |
| WireRules.MarkerRule | claw-os-sdk/go/generated.go:533-549 | a marker is answered in Go exactly for a number with nothing behind its point and more than 1024 digits, in Rust exactly when more than 1024 zeros would be appended |
| WireRules.RaisesRule | claw-os-sdk/wire/codegen.py:825-879 | Python raises exactly when the exponent as written, or an integer it writes out, has more digits than the limit |
| WireNumbers.GoDecodeExactIff | claw-os-sdk/go/generated.go:489-553 | under 2^61 characters the Go decoder is exact about integrality, value and overflow exactly when it has no significant digit, does not saturate, or saturation leaves the answer unchanged |
| WireNumbers.GoDecodeExact | claw-os-sdk/go/generated.go:489-553 | below 10^18 - 1024 digits it accepts exactly the integers, with their value or an overflow of at least 10^1024 |
| WireNumbers.GoRefusesALongInteger | claw-os-sdk/go/generated.go:524-525 | the integer one, spelled with 10^18 zeros and an exponent, is refused |
| WireNumbers.RustDecodeExact | claw-os-sdk/wire/codegen.py:381-414 | the emitted Rust decoder is exact for every lexeme under 2^61 characters |
| WireNumbers.PythonDecodeIff | claw-os-sdk/wire/codegen.py:825-879 | below 10^18 - 1024 digits the emitted Python decoder raises exactly on a nonzero number whose written exponent is over the interpreter's digit limit, or which is an integer over the limit with places behind its point (or within 1024 digits), and otherwise answers as Go does |
| WireNumbers.PythonDecodeExact | claw-os-sdk/wire/codegen.py:825-855 | whatever the Python decoder answers is exact |
| WireNumbers.PythonRaisesOnALongInteger | claw-os-sdk/wire/codegen.py:845-852 | 10^n with a point, under a limit of n digits: Go gives the integer and Python raises however it holds the number |
| WireNumbers.BoundedAnswers | claw-os-sdk/wire/codegen.py:840-844 | with a limit of at least 1024, a number under 10^1024 is always answered, save for the length of its written exponent |
| WireNumbers.GoAndPythonAgree | claw-os-sdk/wire/codegen.py:825-855 | the two saturate to different exponents and still return the same result at every length, whenever Python returns one |
| WireNumbers.CompareFaithful | claw-os-sdk/go/generated.go:555-562 | comparison with a bound under 10^1024 is the mathematical order, in Go and in Rust |
| WireRules.CompareRule | claw-os-sdk/go/generated.go:555-562 | markers stand beyond every written integer on their side and equal themselves, in Go and in Rust |
| WireNumbers.DecodersAgree | claw-os-sdk/wire/codegen.py:381-427 | Go and Rust agree on integrality and on the order against every bound, and Python with them exactly where it does not raise |
| WireNumbers.HugeSpellingsDiffer | claw-os-sdk/go/generated.go:533-549 | one huge number is an overflow in one spelling and materialised in another |
| WireNumbers.CheckBounds | claw-os-sdk/go/generated.go:653-660 | the bounds check gives the verdict of the decoded numbers, for every lexeme a 64-bit length can describe |
| WireNumbers.BoundsMeaning | claw-os-sdk/go/generated.go:653-660 | where the decoder is exact and one side of each comparison is under 10^1024, an integer passes exactly when it is within its integer bounds, and otherwise the violated bound is named |
| WireNumbers.NumberKey | claw-os-sdk/go/mcp.go:1596-1640 | the loop strips zeros and moves the exponent as the normal form says |
| WireNumbers.SameKeyIffSameNumber | claw-os-sdk/go/mcp.go:1587-1640 | two lexemes get the same key exactly when they denote the same rational, at any length |
| WireNumbers.NormalKeysUnique | claw-os-sdk/go/mcp.go:1619-1639 | a number has one normal form |
| WireNumbers.KeyTextInjective | claw-os-sdk/go/mcp.go:1635-1639 | different normal forms print differently |
| WireNumbers.NormaliseKeepsValue | claw-os-sdk/go/mcp.go:1619-1639 | normalising changes no value |
| Sha256.Sha256Stream.Update | core/src/crypto.rs:50-70 | a chunk extends the absorbed message by itself, with the buffer under one block |
| Sha256.Sha256Stream.FinalizeBytes | core/src/crypto.rs:72-90 | the result is the standard's digest of everything absorbed, which `AbcDigest` gives for the standard's example |
| Sha256.Sha256Stream.Compress | core/src/crypto.rs:101-155 | the register loop is the compression function of section 6.2.2 |
| Sha256.ExpandSchedule | core/src/crypto.rs:101-122 | the array filled in place is the recursive message schedule |
| Sha256Standard.AbcDigest | core/src/crypto.rs:101-155 | the digest of "abc" is the 32 bytes of the standard's one-block example, by all 48 schedule words and 64 rounds |
| Sha256Standard.MajTakesMajority | core/src/crypto.rs:136 | a bit of Maj is set exactly when at least two of its arguments' are |
| Sha256Standard.ChChooses | core/src/crypto.rs:129 | a bit of Ch is y's where x is set and z's elsewhere |
| Sha256Standard.RoundConstantsAreCubeRoots | core/src/crypto.rs:102-113 | the round constants are the first 32 fractional bits of the cube roots of the first 64 primes |
| Sha256Standard.InitialWordsAreSquareRoots | core/src/crypto.rs:41-44 | the initial words are those of the square roots of the first eight |
| Sha256Standard.PaddingRule | core/src/crypto.rs:72-90 | padding adds a one bit, fewer than 64 zero bytes and the bit length modulo 2^64, most significant bit first |
| Sha256.DigestOfChunks | core/src/crypto.rs:50-90 | however a message is cut into updates the digest is that of the whole |
| Sha256.HashBlocksConcat | core/src/crypto.rs:50-70 | chaining over a concatenation is chaining over its parts |
| Sha256.PadInjective | core/src/crypto.rs:72-90 | no two messages share a padded form, at any length |
| Sha256.HmacSha256 | core/src/crypto.rs:176-204 | the two-pass construction is the definition in section 2 of RFC 2104 |
| Sha256.HmacKeyEquivalence | core/src/crypto.rs:176-186 | long keys act through their digest and short ones through zero padding |
| Sha256.PadsSeparate | core/src/crypto.rs:187-193 | inner and outer pads never coincide and determine the block key |
| McpArguments.ParseArguments | claw-os-sdk/go/mcp.go:1034-1156 | a declaration list is loaded unchanged exactly when every argument has a name that is not blank or taken and meets the manifest's rules |
| McpArguments.CheckChoices | claw-os-sdk/go/mcp.go:1088-1097 | choices are accepted exactly when each has the kind and no two are equal |
| McpRules.DeclaredRule | claw-os-sdk/go/mcp.go:1034-1156 | a list is loaded exactly when each declaration is sound beside the ones before it, rule by rule |
| McpRules.SpaceRule | claw-os-sdk/go/mcp.go:1043 | a blank name is one of Unicode's 25 white space characters only |
| McpArguments.ResolveArguments | claw-os-sdk/go/mcp.go:1253-1310 | the in-place pass computes the resolution function |
| McpArguments.ResolveMeaning | claw-os-sdk/go/mcp.go:1253-1310 | resolution succeeds, with the supplied arguments and the missing defaults, exactly when every argument's demand holds of that finished map |
| McpArguments.CompletedMeaning | claw-os-sdk/go/mcp.go:1281-1294 | the finished map has the supplied values and otherwise the defaults, and no other name |
| McpArguments.ConditionsSettle | claw-os-sdk/go/mcp.go:1272-1280 | a condition keeps in the final map the truth value it had when it was looked at |
| McpRules.ConditionRule | claw-os-sdk/go/mcp.go:1346-1356 | a condition holds of an argument that is present, and equal or not equal to its value, numbers by number |
| McpArguments.ResolveIdempotent | claw-os-sdk/go/mcp.go:1253-1310 | resolving a resolved map changes nothing |
| McpSchema.BuildInputSchema | claw-os-sdk/go/mcp.go:1187-1231 | the loop builds the advertised schema |
| McpSchema.ConditionalMeaning | claw-os-sdk/go/mcp.go:1233-1251 | the if/then/else of a conditional argument (section 10.2.2 of JSON Schema Core) requires it exactly when its condition is seen |
| McpSchema.SchemaMeaning | claw-os-sdk/go/mcp.go:1187-1251 | the schema accepts exactly the objects with declared names, accepted values, required names and conditional names as their conditions say |
| McpSchema.PropertyAgrees | claw-os-sdk/go/mcp.go:1312-1344 | an advertised property accepts exactly the values dispatch accepts |
| McpSchema.AcceptsSame | claw-os-sdk/go/mcp.go:1187-1251 | no schema tells two spellings of one instance apart |
| McpSchema.DispatchIsSchemaOfCompleted | claw-os-sdk/go/mcp.go:1253-1310 | dispatch accepts a call exactly when the schema accepts the call with defaults filled in |
| McpSchema.NoDefaultedSourceAgrees | claw-os-sdk/go/mcp.go:1187-1310 | with no default on any condition's source, schema and dispatch accept the same calls |
| McpSchema.SchemaAgreesIff | claw-os-sdk/go/mcp.go:1187-1356 | they accept the same calls for every input exactly when no condition holds of its source's default and none compares a list of numbers |
| McpSchema.DefaultHarms | claw-os-sdk/go/mcp.go:1272-1294 | where a condition holds of a default, some call is dispatched that the schema refuses |
| McpSchema.SpellingHarms | claw-os-sdk/go/mcp.go:1587-1594 | where a condition compares a list of numbers, some call is judged differently |
| McpRuntime.StepKeepsInv | claw-os-sdk/go/mcp.go:586-684 | every step of reader, worker, cancellers and failing output keeps order, the key index and the reply record |
| McpRuntime.SendNeverBlocks | claw-os-sdk/go/mcp.go:595-615 | the send made outside the lock always finds room in the channel |
| McpRuntime.ActiveKeysUnique | claw-os-sdk/go/mcp.go:595-615 | at most 64 calls are active, each under its own key |
| McpRuntime.ExecutionIsFifo | claw-os-sdk/go/mcp.go:618-628 | calls are taken and answered in the order they were admitted |
| McpRuntime.OneReplyPerFrame | claw-os-sdk/go/mcp.go:756-768 | no call frame is replied to twice |
| McpRuntime.HealthyFramesAnswered | claw-os-sdk/go/mcp.go:630-684 | with healthy output every frame that is neither active nor suppressed has its reply, an answer exactly when it was admitted |
| McpRuntime.CancelledInTimeStaysSilent | claw-os-sdk/go/mcp.go:471-497 | a call flagged before the worker's last look is never answered |
| McpRuntime.ShutdownDrains | claw-os-sdk/go/mcp.go:318-335 | after input closes the worker ends within a bounded number of steps, leaving nothing active |
| McpRuntime.WorkerNeverStuck | claw-os-sdk/go/mcp.go:618-628 | while a call is active after input closes, the worker has a next step |
| McpRuntime.DrainAnswersInOrder | claw-os-sdk/go/mcp.go:618-684 | an undisturbed drain answers every queued call in order and forgets it |
| McpRuntime.Runtime.QueueToolCall | claw-os-sdk/go/mcp.go:586-616 | a call frame is rejected as malformed, busy or duplicate, or admitted and sent |
| RuntimeRules.FrameRule | claw-os-sdk/go/mcp.go:586-616 | a call frame is refused for its parameters, for 64 active calls or for its key, in that order, and otherwise admitted |
| RuntimeRules.CancelReaches | claw-os-sdk/go/mcp.go:471-497 | a cancel frame flags the call under its key and nothing else |
| RuntimeRules.SweepReaches | claw-os-sdk/go/mcp.go:798-811 | once input is closed or output broken every active call can be flagged |
| McpRuntime.Runtime.CancelAll | claw-os-sdk/go/mcp.go:798-811 | every active call is flagged and nothing else changes |
| McpRuntime.Runtime.RunCalls | claw-os-sdk/go/mcp.go:618-628 | the worker's loop executes and deletes every queued call |
| ObjectRefs.ParseReference | claw-os-sdk/go/objects.go:49-104 | the parser's loop computes the parsing function, fault by fault |
| ObjectRefs.DecodeObjectQuery | claw-os-sdk/go/objects.go:135-151 | the decoder accepts exactly well-escaped values that unescape to UTF-8 |
| ObjectRefs.ObjectComponent | claw-os-sdk/go/objects.go:106-117 | components are bounded lower-case ASCII names |
| ObjectRefs.ObjectOpaque | claw-os-sdk/go/objects.go:119-129 | opaque values are bounded UTF-8 without control characters |
| ObjectSpelling.OpaqueRule | claw-os-sdk/go/objects.go:119-129 | an opaque value is one to the limit of bytes encoding scalar values outside C0, delete and C1 |
| ObjectRefs.ValidEncodes | claw-os-sdk/go/objects.go:119-129 | a string passes as UTF-8 when it encodes a sequence of scalar values, and the control test is over those |
| ObjectRefs.EncodedValid | claw-os-sdk/go/objects.go:119-129 | every encoded scalar sequence passes and reads back as itself |
| ObjectRefs.EscapesBytewise | claw-os-sdk/go/objects.go:131-133 | form-encoding and replacing plus signs escapes byte by byte |
| ObjectSpelling.WrittenBytewise | claw-os-sdk/go/objects.go:131-133 | each byte is written bare when unreserved (section 2.3 of RFC 3986) and otherwise as a percent sign and its two upper-case digits |
| ObjectSpelling.AcceptedUpper | claw-os-sdk/go/objects.go:96-103 | in a reference that is accepted every percent sign stands before two upper-case digits |
| ObjectSpelling.LowerCaseRefused | claw-os-sdk/go/objects.go:96-103 | an id escaped with a lower-case digit is refused as not canonical |
| ObjectSpelling.DecodeIff | claw-os-sdk/go/objects.go:135-151 | a value decodes exactly from its escapings, in either case and bare or not, if it is UTF-8 |
| ObjectRefs.DecodeEncode | claw-os-sdk/go/objects.go:131-151 | decoding an encoded value gives it back |
| ObjectRefs.FormatTotal | claw-os-sdk/go/objects.go:34-46 | a reference formats exactly when it is valid, and within 3669 bytes |
| ObjectSpelling.FormatRule | claw-os-sdk/go/objects.go:17-31 | the first part out of its bounds decides the refusal, and with none there is none |
| ObjectSpelling.LengthRule | claw-os-sdk/go/objects.go:49-52 | a URI is refused for its length exactly above 4096 bytes |
| ObjectRefs.LongestAttained | claw-os-sdk/go/objects.go:34-46 | some valid reference needs all 3669 bytes |
| ObjectRefs.RoundTrip | claw-os-sdk/go/objects.go:34-104 | every valid reference survives being written and read |
| ObjectRefs.ParseIffSpelling | claw-os-sdk/go/objects.go:49-104 | a string parses to a reference exactly when it is that valid reference's one spelling |
| ObjectRefs.SpellingInjective | claw-os-sdk/go/objects.go:34-46 | no two references share a spelling |
| ObjectRefs.AnyEscapingReads | claw-os-sdk/go/objects.go:49-94 | however its values are escaped, a URI reads as the reference it carries |
| ObjectRefs.OtherEscapingRefused | claw-os-sdk/go/objects.go:96-103 | any other escaping is refused by the final comparison |
| ObjectRefs.EscapedLetter | claw-os-sdk/go/objects.go:135-151 | an escaped letter decodes to the letter, which is written unescaped |
| OperationArgv.RawOperationPositionals | core/src/bridge.rs:1737-1765 | the token loop computes the positionals |
| OperationArgv.CanonicalOperationArgv | core/src/bridge.rs:1658-1735 | positionals and flags are written in canonical order, behind a separator when a positional needs one |
| OperationArgv.ArgvRoundTrip | core/src/bridge.rs:1658-1765 | re-reading a canonical argv gives the positionals it was written from |
| OperationArgv.GivenPositionalsKept | core/src/bridge.rs:1667-1698 | when every positional is bound to the raw text it takes, the canonical argv holds exactly the raw argv's positionals |
| OperationArgv.PlainNamesRead | core/src/bridge.rs:1737-1765 | distinct non-empty flag names without an equals sign meet the condition for reading back |
| OperationArgv.ReadsBackIff | core/src/bridge.rs:1658-1765 | the positionals survive for every input exactly when each flag name is usable as one option |
| OperationArgv.UnderscoreShadowsDash | core/src/caps/args.rs:312-314 | names differing in an underscore and a dash break the round trip when one is a switch |
| OperationBinding.BindTokens | core/src/caps/args.rs:34-76 | the token loop binds the options it meets, refusing a text that does not convert or is no choice and an option given again without being repeatable, and keeps the positionals in order |
| OperationBinding.BindSuppliedCliArgs | core/src/caps/args.rs:34-108 | positionals are then handed to their declarations in order, the last of them taking the rest, and any left over is refused |
| BinderMeaning.BindMeaning | core/src/caps/args.rs:34-108 | any argv is bound to a map exactly when it can be cut into positionals and options whose readings the map stands for: each positional has a declaration to take it, each text converts, nothing comes twice that is not repeatable, and each name has its one value or its list in order |
| BinderMeaning.TwiceRefused | core/src/caps/args.rs:384-388 | two readings of one option that is not repeatable are refused, whatever else is in the argv |
| BinderMeaning.SurplusRefused | core/src/caps/args.rs:102-107 | more positionals than declarations, none of them repeatable, are refused |
| BinderMeaning.WrittenScans | core/src/caps/args.rs:34-76 | an argv written in such pieces is read as what they say |
| BinderMeaning.ScannedWritten | core/src/caps/args.rs:34-76 | and whatever is read was written in such pieces |
| BinderMeaning.LauncherWrites | core/src/bridge.rs:1698-1735 | a canonical argv is the positionals and then each flag's pieces, or the flags and the positionals behind the separator when one starts with two dashes |
| OperationBinding.ScanReadsBack | core/src/caps/args.rs:34-76 | every positional and option occurrence of a canonical argv is read back, unless a single-dash positional was left bare |
| OperationBinding.BinderRecoversIff | core/src/caps/args.rs:34-108 | for values that survive their own texts, the authority binds a canonical argv to exactly the names and values the launcher wrote if and only if no positional is written after one left out and none is left dashed and bare |
| OperationBinding.ManifestLeavesNoGap | core/src/caps/manifest.rs:1089-1107 | under the manifest's rule on defaults, with required arguments supplied and other defaults applied, there is no such gap |
| OperationBinding.GapMisbinds | core/src/bridge.rs:1667-1698 | without that rule a defaulted value is bound to the name before it |
| LaunchApprovals.ApprovalStatusesComplete | core/src/bridge.rs:1468-1502 | done exactly when the response answers for each requested id once and all are granted, waiting exactly when some are still open; otherwise refused because the response does not fit the ids, or for its first entry that is unnamed, unexpected, denied or no longer available |
| Checkpoint.CopyDirRecursive | core/src/checkpoint.rs:733-775 | the copy is the tree itself, links included, exactly when it holds no device |
| Checkpoint.HighestId | core/src/checkpoint.rs:228-250 | the highest id claimed by a visible directory |
| Checkpoint.NextFree | core/src/checkpoint.rs:442-459 | the first number whose directory name is free, or none within the limit |
| CheckpointRules.ClaimRule | core/src/checkpoint.rs:236-249 | a name claims an id exactly when it is a directory's, begins with no full stop, and spells a 32-bit number before its first dash |
| CheckpointRules.NameRule | core/src/checkpoint.rs:445-450 | a new directory is named by its number in at least three digits, and a dash and the slug if there is one |
| CheckpointRules.LimitRule | core/src/checkpoint.rs:456-458 | numbers up to 999999 are tried after a clash |
| Checkpoint.AllocatedIsAbove | core/src/checkpoint.rs:442 | below the 32-bit limit a new id is above every claimed one |
| Checkpoint.FreshIdResolvesOnly | core/src/checkpoint.rs:442-459 | the new id resolves to the new directory and to nothing else |
| Checkpoint.FreshIdUniqueIff | core/src/checkpoint.rs:442-459 | over all stores, the new id resolves to the new directory alone exactly when the highest claimed id is below the 32-bit limit or no visible directory carries the new id's text |
| Checkpoint.WrappedIdAmbiguous | core/src/checkpoint.rs:442 | at the 32-bit limit the number wraps and the new id resolves to an older checkpoint too |
| Checkpoint.Overlay.Create | core/src/checkpoint.rs:418-526 | a create allocates an id and reaches the state its stop calls for |
| Checkpoint.Overlay.Rollback | core/src/checkpoint.rs:578-691 | a rollback resolves its id before touching anything and stages, swaps and discards up to its stop |
| Checkpoint.Overlay.FindCheckpointDir | core/src/checkpoint.rs:693-716 | finds a visible directory carrying the id if there is one |
| CheckpointRules.MatchRule | core/src/checkpoint.rs:693-716 | a directory answers to an id exactly when it is visible and named by it, alone or with a dash and a text behind it |
| Checkpoint.CreateKeepsTrees | core/src/checkpoint.rs:464-508 | wherever a create stops, every tree that was in the upper, aside or a layer still is, and earlier checkpoints are untouched |
| Checkpoint.RunSafeIff | core/src/checkpoint.rs:578-691 | over any run of creates, rollbacks, edits and remounts, each stopping anywhere, every workspace survives until a chosen tree takes its place exactly when no rollback clears one that is pending and in no layer and stops before its swap |
| Checkpoint.RollbackSafeIff | core/src/checkpoint.rs:609-672 | one rollback is safe at every stop exactly when no workspace is pending from a stopped one, or it is in a layer |
| Checkpoint.FreshUpperHidesPending | core/src/checkpoint.rs:626-632 | a create or remount after a stopped rollback leaves the workspace aside, and the next rollback destroys it |
| Checkpoint.RetryCanLoseWorkspace | core/src/checkpoint.rs:626-632 | retrying a rollback that stopped between its renames can leave no copy of the workspace |
| Checkpoint.ListCheckpoints | core/src/checkpoint.rs:781-833 | the listing loop collects the complete checkpoints |
| Checkpoint.ListedExactly | core/src/checkpoint.rs:781-833 | a row is listed exactly when its directory has both a layer and metadata |
| Checkpoint.ListedOnlyWhenWhole | core/src/checkpoint.rs:464-508 | a stopped create is listed only once its layer holds the whole upper |
| Checkpoint.RestorableForeverIff | core/src/checkpoint.rs:418-526 | over any run, finished or stopped anywhere, what an id restores stays as it is exactly when no later create makes a directory under the same id |
| Checkpoint.AboveNeverReuses | core/src/checkpoint.rs:442-459 | below the 32-bit limit no create does |
| Checkpoint.CreateThenRollback | core/src/checkpoint.rs:578-672 | create, then any run that does not reuse the id, then rollback to it restores the saved tree unless it holds a device |

## Left out

- Real input and output, fsync, permissions, ownership checks, process start times read from the kernel, and file descriptor handling.
- Audit: argument redaction, policy projections, operator messages, the size estimate, lines over the length limit and the reader's bounded tail window, and undoing a failed append by truncation.
- Approvals: submission limits and validation of texts, journals, presentation, waiting, and the policy records of `app_policy.rs`.
- Wire numbers: native integers and floats handed to the decoders; only lexemes are modelled, with the pattern match that splits them.
- MCP: reading frames, the handshake, progress, deadlines, results and their coercion; a handler is one step that ends.
- Manifests: JSON shapes, labels, bindings and localised text; declarations start as records.
- Object references: error messages; faults are named instead.
- Argv: how a text converts to its kind and compares with choices (a parameter of the binder), defaults, conditions, and path resolution around the canonical form.
- Checkpoints: mounting beyond the directories it creates, whiteout interpretation, quotas, namespaces, diffs, the stale-lock rules and failures of best-effort deletions; file metadata other than content.
- Digests as lower-case hex text.
- GrantStore.Store.ConsumeGrantSetOnce: assumes no id rests in both directories, which fresh ids guarantee, and that moving back succeeds; the queue's set steps cover a move back that fails.
- AuditRuns.CorruptionIsSticky: covers appends and plain archives; a crashed append and a quarantine are treated by their own lemmas. Archive names are new when used.
- AuditRuns.CorruptionIsStickyIff: takes the glued line to fit the reader's tail window; a longer one is refused like a line that is not UTF-8.
- AuditLog.TamperEvidence: needs a non-empty log, since an empty one ends in no hash.
- WireNumbers.BoundsMeaning: says nothing of two numbers that are both 10^1024 or more, which compare by their markers.
- McpSchema.SchemaAgreesIff: bounds the digits of one number by the frame and manifest sizes instead of bounding the whole text.
- McpRuntime.ShutdownDrains: assumes a handler returns and a write does not block for ever.
- OperationArgv.ReadsBackIff: quantifies over the positionals being written, whichever raw tokens they came from.
- Checkpoint.FreshIdResolvesOnly: needs the highest claimed id below the 32-bit limit; `FreshIdUniqueIff` covers both sides of it.
- Checkpoint.Overlay.Create: the description's slug is any text; how it is derived is not modelled.
- BinderMeaning.BindMeaning: takes declarations with different names, which the manifest guarantees.
- WireRules.MarkerRule: for exponents of magnitude under 10^18; beyond, `ExponentRule` says what replaces them.
- Sha256Standard.RoundConstantsAreCubeRoots: lists the 64 primes and does not prove that they are the first ones.
