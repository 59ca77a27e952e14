# A verified model of the agent event log, its checkpoints and its delegation doors

This project models the hard core of agent-stack-go in Dafny and proves what its parts promise each other.

* **The chained log** (`event/chain.go`). A stream is a sequence of bytes. Any number of writers append to it: lock, read
  the tail, stamp `prev_hash`, append, unlock. Each may die at any byte of an append. `readTail` and `verifyChain` are
  loops, proved against references that split the whole file.
* **The checkpoint sidecar** (`event/checkpoint.go`, `event/scan.go`). The writer's incremental hash is proved equal to
  a full rescan. Records chain in their own file across crashes and reopens. The one-pass verifier is proved equal to
  hashing the whole stream for each record alone.
* **Replay memory** (`delegation/replay.go`, `delegation/dpop.go`). A pruned map and a two-generation cache are proved to
  decide as an unbounded memory does.
* **Delegation chains** (`delegation/chain.go`, `chain/chain.go`). The nested `act` claim is a heap of nodes, cyclic ones
  included. The door's validation and the record's agree.
* **Tokens, revocations and the watcher** (`delegation/access.go`, `delegation/verify.go`, `delegation/revocations.go`,
  `cmd/agent-conform/watchdir.go`). Doors sharing one cache, the held revocation list over any run, and the alert and
  state accounting of `watch-dir` under failing writes, failing saves and crashes.

## How the model is built

Code that changes fields step by step is a class whose methods are proved against a pure function of the state:
`LineScanner`, `ChainedWriter`, `Checkpointer`, `ReplayCache`, `Verifier`, `Revocations`, the capped readers, and the
watcher's `Box`. What a run keeps is then proved about those functions. Whole protocols are sequences of steps.

SHA-256, JSON, RFC 8785 canonicalization, base64url and ECDSA are functions with a few stated laws (`Wire.Lawful`,
`Record.NotaryLaws`, whose round trips are for counts up to 2^53, the ones a reader of JSON numbers reads back).
`Small` is an encoding under which all of them hold at once, with records that fit and a signer that signs
(`Small.EveryLawCanBeMet`), and it holds the example streams. No law says that SHA-256 is injective, which no 32-byte
digest is: a theorem that needs two digests to differ says "or this is a collision". The state of a running hash is the
bytes it has been fed.

Four findings are worth a maintainer's attention.

* The package promises a resume record after a crash. The restart that follows an open over a stream a writer cannot
  chain from is explained if and only if neither the last newline-terminated line nor the fragment behind it is an event
  (`Resume.RestartExplainedExactly`). A fragment behind an event is no line to the scan that decides, so that restart is
  never explained, by this record or any later one (`Small.ATornRun` is such a run). And a record is also written over a
  tail of blank lines behind an event, where no restart follows it (`Small.ABlankTailIsChainedFrom`).
* When a scan fails, `advance` returns with the hash already fed past `off`. The next scan that sees a fragment and no
  complete line makes the hash whole again; one that sees a complete line carries the bytes fed too many into every later
  record of that writer. Such a record is written as soon as it is due (`CheckpointRuns.OneRecordExactlyWhenDue`), and
  the records refused are exactly these (`CheckpointRuns.RefusedExactlyWhenDrifted`; `Small.ADriftedRecordIsRefused` is
  a run of five steps that ends in one).
* The comment at `event/chain.go:43-48` says that any line the verifier can judge, a writer can chain from. A writer looks
  back 4 MiB in all, so the line, the LF before it and what is behind it must fit (`Tail.ChainedFromExactly`); a line of
  4 MiB less one byte behind another line does not (`Small.JudgedAndNotChainedFrom`).
* `Verify` refuses a token that has a subject and no `act` (`Verify.NoActIsNoChain`), although its comment on `typ`
  says that such claims would read as a chain of one. It also remembers a proof before it compares the key and reads the
  chain and the list, so a presentation refused for any of these has spent it (`Verify.ProofSpentExactly`;
  `SmallToken.ARevokedTokenExists` is one), where `VerifyAccess` spends none.

## Model

| member | source | states |
|---|---|---|
| Bytes.SplitUnique | event/scan.go:58-96 | bytes split into newline-terminated lines and a rest in one way only |
| Bytes.TokensConcat | event/chain.go:491-496 | a stream that ends at a line boundary, followed by another, has the lines of the one and then the other's |
| Bytes.TrimRightOfLastLine | event/chain.go:398-413 | a non-blank last line is trimmed on its own, whatever precedes it, over every rune `unicode.IsSpace` accepts |
| Wire.HashTextTellsApart | event/chain.go:133-144 | the texts of two digests are equal exactly when the hashed bytes are, or collide |
| Tail.ReadTail | event/chain.go:374-417 | the doubling backward reads return exactly the last non-blank line of the whole file, when it is an event and it and its preceding LF lie in the window or the file does, else none; and whether the file ends in LF |
| Tail.WindowAnswers | event/chain.go:392-415 | the first window that shows a line shows that of the whole file; a full window that shows none means there is none within reach |
| Tail.LastNonBlankMeaning | event/chain.go:398-406 | the line found is not blank and every line after it is |
| Tail.TailMeaning | event/chain.go:398-413 | the line chained from is the last non-blank one, an event in sight, or none: never a line before it |
| Tail.ChainedFromExactly | event/chain.go:43-49 | an event line is chained from exactly when the whole file lies in the window, or the line, the LF before it and all behind it do |
| Chain.VerifyChain | event/chain.go:482-553 | the loop's report and restarts are those of the class of each line; `Chain.ClassMeaning`, `Chain.ReportMeaning` and `Chain.BreakMeaning` say which these are |
| Chain.ClassMeaning | event/chain.go:498-546 | a line that carries a `prev_hash` is chained or broken exactly when the last non-blank line before it is itself an event that can be hashed, chained exactly when the two hashes are equal, and unverifiable otherwise: behind a malformed line never a break |
| Chain.OwesOne | event/chain.go:517-533 | a line can be owed one hash only |
| Chain.ReportMeaning | event/chain.go:430-452 | the counts and lists of the report are those of the lines of each class |
| Chain.BreakMeaning | event/chain.go:535-546 | a break names its line, the `prev_hash` found there and the one that was owed |
| Chain.ReportPartitions | event/chain.go:430-452 | lines are malformed, chained, heads, unverifiable or breaks, one of them each, in strictly increasing disjoint lists |
| Chain.RestartsAreLaterHeads | event/chain.go:508-516 | the restarts are exactly the heads after the first, each paired with the last event line before it |
| Chain.BreaksAreBroken | event/chain.go:535-546 | the breaks are exactly the lines of the broken class, in order |
| ChainLaws.ReportsMerge | event/chain.go:482-553 | the report of one stream behind another is the merge of both, but for the class of the second one's first line and whether its first head is a restart |
| ChainLaws.RestartsConcat | event/chain.go:508-516 | the restarts of a stream behind another are its own, shifted, and its first head if the other held one, each after the right event line |
| ChainLaws.ReplacedLineBreaksTheNext | event/chain.go:494-548 | replacing a chained-to line by an event of another canonical form breaks the next link and no other line's class changes |
| ChainLaws.DeletedLineBreaksTheNext | event/chain.go:494-548 | deleting a chained-to line breaks the next link exactly when the line before it is an event of another hash; every other class stays |
| Writer.ChainedWriter.AppendLocked | event/chain.go:310-345 | one append: what reaches the file, what is stamped, the field kept for the next one, and each failure |
| Writer.ChainedWriter.constructor | event/chain.go:220-249 | opening chains from the tail line, or starts fresh |
| Writer.PartialTokens | event/chain.go:334-343 | an append cut at any byte adds at most one line, as much of the event as was written |
| Writer.TornIsMalformed | event/chain.go:499-507 | a torn event is a malformed line, never an event |
| Writer.AppendedIsChained | event/chain.go:321-332 | what the writer stamps the verifier accepts: the new line is a head or chained |
| Protocol.RunsNeverBreak | event/chain.go:281-345 | any number of writers, any interleaving, any crash at any byte: no break on any reachable file |
| Protocol.StepKeepsSound | event/chain.go:281-307 | every step keeps the file sound and what the lock holder stamped true of the file |
| Protocol.UnlockedAppendsBreak | event/chain.go:281-307 | without the lock the theorem fails: two appends stamped from one tail break the chain |
| Protocol.AcknowledgedExactlyOnce | event/chain.go:281-345 | from any file, over any run of complete events: the event lines are those there before and one for each write that landed, every acknowledged event among them exactly once and in the order of acknowledgement |
| Protocol.RestartsAreCounted | event/chain.go:281-345 | from a tidy file, over any run of events whose line fits the window under any prev_hash a writer stamps: malformed lines are at most those before and the torn appends, heads at most one more than the malformed lines, nothing is unverifiable |
| Protocol.CountsAreOfSteps | event/chain.go:334-343 | the torn appends and the writes that landed unsaid, which the two theorems above bound by, are those steps of the run that cut an event short and those that left one on disk with its Write never returning success |
| Protocol.AWriteLands | event/chain.go:281-345 | where nobody holds the lock, a Write that nothing cuts short lands, chained from the tail of the file, says so and lets the lock go; one whose event cannot be encoded leaves the file as it was |
| Protocol.TheLockComesFree | event/chain.go:281-307 | over any run, crashes included, the lock is free exactly when no writer is inside Write |
| Protocol.StepKeepsAcknowledged | event/chain.go:334-343 | acknowledgements and event lines stay matched through every step |
| Scan.LineScanner.Run | event/scan.go:58-96 | what is emitted, and the hash at each emit, depend on the bytes read and not on how reads cut them; the scan stops at the first refused line, having hashed exactly through it |
| Scan.LineScanner.Settle | event/scan.go:99-109 | the hash goes back to exactly the bytes through the last LF |
| Scan.EmittedCloses | event/scan.go:63-86 | closing a line emits that line, long exactly when over the cap, with the hash at exactly the bytes through its LF |
| Scan.EmittedStable | event/scan.go:58-96 | reading on changes nothing already emitted |
| Scan.RefusedAt | event/scan.go:79-83 | a scan that a refusal stopped has read the stream exactly through the refused line |
| Record.CheckIsLocal | event/checkpoint.go:666-780 | a verdict looks up the head and prefix of its own count and no other |
| Checkpoints.VerifyCheckpoints | event/checkpoint.go:567-630 | one pass with its `needed` set gives every record the verdict of re-splitting and re-hashing the whole stream for it alone; the three errors, exactly when |
| Checkpoints.ReadSidecar | event/checkpoint.go:651-662 | the records are the complete lines; a torn last one is none |
| Checkpoints.AcceptedExactlyWhenHolds | event/checkpoint.go:666-780 | a record as encoded, with a count up to 2^53, is accepted if and only if count, head, prefix, prev, stream, time and signature all hold |
| Checkpoints.VerdictMeaning | event/checkpoint.go:666-780 | for any line: which of the refusals is given, each exactly when all asked before it holds and it does not |
| Checkpoints.AcceptedMeans | event/checkpoint.go:666-780 | for any line of any sidecar: valid exactly when it has the eight members and the three of a signature and no more, version 1, a known kind, this stream, a count within it, the head and prefix of that line, the prev of the record before, a time and a 64-byte ES256 signature of a held key that verifies; unsigned exactly when the one reason v1 has stands in place of the three |
| Checkpoints.AcceptedFixesTheRecordBefore | event/checkpoint.go:605-627 | one record accepted in two sidecars has the same record before it in both, or exhibits a collision |
| Checkpoints.AcceptedFixesThePrefix | event/checkpoint.go:720-736 | one record accepted against two streams makes them byte-equal through its count-th LF, or exhibits a collision |
| Checkpoints.VerdictStable | event/checkpoint.go:585-601 | a verdict that is not a truncation stays under every extension of the stream |
| CheckpointState.AdvanceIsRescan | event/checkpoint.go:477-519 | after `advance` the sum, offset, count and head are those of a full rescan, if the stream kept its first `off` bytes or shrank below them |
| CheckpointState.RecordForMeaning | event/checkpoint.go:253-280 | an expired key gives the record with its reason; a signer that fails, or gives no 64 bytes, none; else the signature of the record's own signing input |
| CheckpointState.LastGoodMeaning | event/checkpoint.go:363-380 | the line a resume record names is the last one with a head |
| Checkpointer.Checkpointer.Advance | event/checkpoint.go:477-519 | the new state, how far a failed scan fed the hash, and exactly when a scan fails |
| Checkpointer.Checkpointer.WriteRecord | event/checkpoint.go:448-473 | the record in full and the chain moved on to it, or nothing at all |
| Checkpointer.Checkpointer.AfterAppend | event/checkpoint.go:523-544 | a checkpoint when one is due by count or by time, and the state after it; after a failed scan, the drifted state and no record |
| Checkpointer.Checkpointer.CloseLocked | event/checkpoint.go:547-555 | the close record over the stream as it stands |
| Checkpointer.SidecarTail | event/checkpoint.go:411-439 | the prev of the next record and the length of the complete ones, or none, exactly when a read fails or a record is over the cap |
| Checkpointer.Open | event/checkpoint.go:337-407 | the torn record cut, one full read, one resume record exactly when due; what a failing read of either file leaves |
| CheckpointRuns.RefusedExactlyWhenDrifted | event/checkpoint.go:337-555 | over any run of open, write, close, failed append, failed scan, growth and death at any byte: the report is made, and the records refused, for their prefix, are exactly those written while the hash held bytes too many (or a collision) |
| CheckpointRuns.OneRecordExactlyWhenDue | event/checkpoint.go:523-555 | a scan that ends leads to one record exactly when the last complete line is an event and the record is due, by the lines and the time since the writer's last record in the history of the run, as a close always is; it counts every complete line and holds what the hash held |
| CheckpointRuns.RunsStayTimed | event/checkpoint.go:448-544 | over every run a live writer's pending is the complete lines since its last record or its open, and its clock that of the record or the open |
| CheckpointRuns.CheckpointsAreApart | event/checkpoint.go:523-544 | of two checkpoint records of one writer with none between, the later counts at least `every` lines more, or comes at least `interval` later |
| CheckpointRuns.NoRecordIsEverRefused | event/checkpoint.go:337-555 | without a failed scan no record of any run is refused: valid if signed, unsigned if not |
| CheckpointRuns.AdvancePlaced | event/checkpoint.go:477-519 | a scan that ends leaves the fields of a full rescan, and the bytes fed too many where settle puts them |
| CheckpointRuns.AFailedScanIsHealedOnlyByAFragment | event/checkpoint.go:500-515 | after a scan that failed, the next that ends makes the hash whole exactly when it sees no complete line |
| CheckpointRuns.DriftOutlivesTheScan | event/checkpoint.go:500-515 | once carried past a complete line, the drift is in every later record of that writer |
| CheckpointRuns.WrittenSurvives | event/checkpoint.go:448-473 | a record by a writer in step is right, whole or not there, whatever part of it reached the disk |
| CheckpointRuns.OpenLeaves | event/checkpoint.go:337-407 | reopening over a torn sidecar continues the chain of prevs, and writes a resume record that is right or none |
| Resume.RestartExplainedExactly | event/checkpoint.go:363-405 | for every run, open over any stream a writer cannot chain from, next write and later run: the write restarts after line k, and a valid resume record names k if and only if neither the last newline-terminated line nor the fragment behind it was an event |
| Resume.ResumeDueExactly | event/checkpoint.go:390-395 | over such a stream the record is due and names line k exactly when neither the last newline-terminated line nor the fragment behind it is an event |
| Resume.TailsThatDecide | event/checkpoint.go:390-395 | of complete lines the last one decides; a fragment behind an event gets no record |
| Resume.NothingNamesItAnew | event/checkpoint.go:363-405 | once a later line is an event, no step of any writer adds a resume record that names line k |
| Resume.NextWriteRestarts | event/chain.go:508-516 | whatever the stream ends in, the next chained write is a head exactly when there is nothing to chain from, and then a restart after line k exactly when the stream holds a head |
| Resume.ResumeCounts | event/checkpoint.go:137-145 | the counts of exactly the valid resume records |
| Resume.ExplainedBy | cmd/agent-conform/checkpoints.go:140-150 | a restart is explained exactly when a valid resume record names the line before it |
| Small.EveryLawCanBeMet | event/checkpoint.go:219-280 | all laws taken for JSON, RFC 8785, SHA-256 and the signer hold together, records fit the cap and the signer is honest |
| Small.LawsCanBeMet | event/chain.go:77-139 | the laws taken for JSON and SHA-256 hold together, with complete events that encode and decode under any hash as `prev_hash` |
| Small.CompleteIsOrdinary | event/chain.go:310-345 | events with every required member meet the premise of the exactly-once theorem |
| Small.ATornRun | event/checkpoint.go:363-405 | a run meets every premise of the theorem on restarts, its tail a fragment behind an event |
| Small.ABlankTailIsChainedFrom | event/checkpoint.go:390-395 | over an event and an empty line a resume record is due and the next write chains all the same |
| Small.ADriftedRecordIsRefused | event/checkpoint.go:500-515 | a run in which a scan fails, whose one record is refused for its prefix |
| Small.JudgedAndNotChainedFrom | event/chain.go:43-49 | a line of 4 MiB less one byte is judged an event and not chained from |
| Clock.SaturatingSub | delegation/replay.go:105-114 | the wrap-around test computes the true difference clamped to 64 bits |
| Clock.SaturatingAdd | delegation/access.go:305-314 | the wrap-around test computes the true sum clamped to 64 bits |
| Replay.ReplayCache.CheckAndRecord | delegation/replay.go:67-100 | the generations turn by true age, and the verdict and new memory follow |
| Replay.SingleUseUnderAnyClock | delegation/replay.go:67-100 | once admitted at s an id is refused as a replay by every later call until some call has read a clock beyond s plus two windows, even if the clock walks back |
| Replay.TwoWindowsIsExact | delegation/replay.go:9-15 | one second more is enough to be forgotten |
| Replay.EveryReplayWasAdmitted | delegation/replay.go:89-94 | no id is refused as a replay that was not admitted; under a forward clock, less than three generations before |
| Replay.RunsKeepBounds | delegation/replay.go:53-62 | `started` never goes back and no generation exceeds its cap, over any run |
| Replay.Verifier.Remember | delegation/dpop.go:202-215 | the loop prunes exactly the proofs that can no longer be fresh, then inserts |
| Replay.PrunedMapIsUnbounded | delegation/dpop.go:67-82 | the pruned map decides every presentation of a forward run as a memory that forgets nothing |
| Replay.EntriesLeaveInTwoWindows | delegation/dpop.go:70-76 | every entry left by a look at the clock was presented within two windows of it |
| Replay.GenerationsAreUnbounded | delegation/replay.go:27-33 | a fresh presentation is refused as a replay exactly when its id was admitted before in the run |
| Replay.EachProofAdmittedOnce | delegation/replay.go:17-19 | no proof is admitted twice, full cache or not |
| Replay.ThreeMemoriesAgreeExactly | delegation/dpop.go:178-215 | on any forward clock, fractions included, pruned map, two generations (not full) and unbounded set decide a whole run alike if and only if no new id is presented in the fraction of a second past its window |
| Replay.FreshnessDiffersInTheGap | delegation/access.go:230-230 | the door's whole-second freshness is the map owner's plus that fraction of a second, nothing else |
| Replay.HalfASecondTellsThemApart | delegation/access.go:230-230 | such a run: the door admits what the map's owner calls stale |
| Replay.RoomIsNeverFull | delegation/replay.go:53-62 | a cache with room for every presentation is never full |
| Replay.MapAcceptsAgainExactly | delegation/dpop.go:202-215 | under any clock, a proof accepted once and fresh again is accepted again exactly when a fresh presentation between read a clock too late for it |
| Replay.MapNeedsAForwardClock | delegation/dpop.go:205-209 | such a run: a clock set forward and back |
| Act.ReadAct | delegation/chain.go:124-141 | on any heap, cyclic ones included, it ends, and the list, too deep or no subject is what the walk meets first |
| Act.BuildAct | delegation/chain.go:98-115 | fresh nodes that spell the chain reversed; each refusal exactly when |
| Act.ReadsOnce | delegation/chain.go:124-141 | one heap has one answer |
| Act.ReadsClosed | delegation/chain.go:124-141 | a closed nesting is read exactly when it has at most 32 entries, none empty, and reads as its subs root first |
| Act.CyclicIsRefused | delegation/chain.go:124-131 | an act that comes back to itself is refused |
| Act.BuiltReadsBack | delegation/chain.go:117-123 | reading undoes building |
| Act.ReadBuildsBack | delegation/chain.go:117-123 | building undoes reading |
| Passport.Validate | chain/chain.go:70-85 | valid exactly when at most 32 distinct entries of either scheme; otherwise the first fault |
| Passport.OneFault | chain/chain.go:70-85 | a chain has one fault or is valid, never both |
| Passport.Append | chain/chain.go:51-65 | the longer chain in memory of its own, the given one untouched; each refusal in order |
| Delegation.Extend | delegation/chain.go:150-165 | the longer chain in memory of its own; each refusal in order |
| Delegation.OneMoreIsValid | delegation/chain.go:150-165 | a valid chain takes one more URI from either package exactly when the longer chain is valid |
| Delegation.FaultsAgree | chain/chain.go:51-65 | the two packages name the same fault except on a full chain that names the principal too, and on the empty principal, which one refuses and the other takes |
| Delegation.GrownExactlyWhenValid | chain/chain.go:51-85 | chains grown from nothing by URI principals, by either package, are exactly the valid ones |
| Delegation.Chain | delegation/chain.go:185-228 | the loop assembles subject and actors and refuses what `Validate` refuses, with its fault |
| Delegation.DoorAndRecordAgree | delegation/chain.go:206-226 | `Chain` accepts exactly when `chain.Validate` accepts the subject and the root-first actors, and names the same fault |
| Delegation.TokenKeepsItsChain | delegation/chain.go:167-184 | a valid chain cut into subject and act assembles to itself |
| Delegation.RootInsideActIsRefused | delegation/chain.go:211-215 | an act built from the whole chain, root included, is a cycle, or too deep when full |
| Dpop.VerifyProof | delegation/dpop.go:118-197 | accepted exactly when key, method, URL, freshness and id all hold; otherwise the refusal of the first check that fails |
| Dpop.RefusalMeans | delegation/dpop.go:118-197 | which refusal, each exactly when all asked before it holds and it does not |
| Dpop.Check | delegation/dpop.go:93-102 | a proof that does not hold leaves the memory as it was |
| Access.VerifyAccess | delegation/access.go:226-258 | the cache changes only for a presentation that passes every other check, revocation included; admitted, replayed or full exactly as the cache says; else the first failing check |
| Access.ProofRefusalMeans | delegation/access.go:226-258 | the same for the proof presented with a token |
| Access.EachProofOpensOneDoorOnce | delegation/access.go:211-225 | across all doors and tokens of a process, one proof is admitted once until some presentation that reached the cache has read a clock beyond two windows after it |
| Revocations.Revocations.Install | delegation/revocations.go:366-382 | a refused list changes nothing but the count; an accepted one replaces list and age together |
| Revocations.Revocations.Check | delegation/revocations.go:390-412 | the loop's answer is that of the held list, its age and the fail mode |
| Revocations.ReachOfAnEntry | delegation/revocations.go:138-150 | an entry reaches its token, its subject's tokens up to and at its second, nobody when it names neither, until the nanosecond its expiry begins or for good |
| Revocations.BasisMeaning | delegation/revocations.go:390-412 | which of the four bases, exactly when, and revoked as it and the fail mode say |
| Revocations.HeldIsTheGreatest | delegation/revocations.go:366-382 | over any run the held list and its age are those of the last offer of the greatest positive cursor, and the count is that of lists offered from behind |
| Revocations.AHitDoesNotRot | delegation/revocations.go:41-49 | a live covering entry answers revoked at any age, under any policy, after any refused list |
| Verify.Verify | delegation/verify.go:103-205 | accepted exactly when token, request and memory are as `Verify.Grants` says and no party is revoked; refused as revoked exactly when they are and some party is; else the first failing check; what the memory keeps |
| Verify.GrantsExactly | delegation/verify.go:103-205 | the ordered checks are together: no agent token, signed, the issuer, the audience, an `exp` after now's second, subject, id and bound key named, a proof that holds for this request, not spent, of that key, and a chain the record would hold |
| Verify.RefusalMeans | delegation/verify.go:103-172 | which refusal, each exactly when all asked before it holds and it does not |
| Verify.VerifiedExactlyWhenNobodyIsRevoked | delegation/verify.go:173-192 | through the hook, failing closed: verified exactly when a young list is held that covers no party of the chain |
| Verify.ALiveEntryRevokes | delegation/verify.go:176-184 | an entry for any actor of the chain, or for the token, revokes it at any age |
| Verify.NoActIsNoChain | delegation/verify.go:160-171 | a token without `act` is refused even with a subject |
| Verify.ProofSpentExactly | delegation/verify.go:152-192 | a presentation leaves a new entry in the memory exactly when every check before it passes and the id was not held, whatever it is refused for after |
| Verify.SpentIsReplayed | delegation/verify.go:152-192 | a proof so spent is refused as a replay next time |
| Verify.ARevokedTokenSpendsItsProof | delegation/verify.go:152-192 | the proof of a token refused as revoked is used up |
| SmallToken.ARevokedTokenExists | delegation/verify.go:103-205 | a token that passes every check but revocation, and has spent its proof |
| Capped.LineCapReader.Read | cmd/agent-conform/watchdir.go:630-644 | hands on exactly what precedes the byte that makes a line too long, and names that line |
| Capped.ByteCapReader.Read | cmd/agent-conform/watchdir.go:653-667 | hands on at most the cap, and truncated exactly when there was more |
| Capped.VerifyStream | cmd/agent-conform/watchdir.go:672-713 | however reads are cut, the report is that of the longest part of the file within both caps; which error ends it, and none exactly when that is the whole file |
| Capped.OneLongest | cmd/agent-conform/watchdir.go:630-644 | there is one longest part within the line cap |
| Capped.PartIsNotMisjudged | cmd/agent-conform/watchdir.go:672-713 | what is said of a complete line of the part that was read is what verifying the whole file would say of it |
| Watch.UnchainedMeaning | cmd/agent-conform/watchdir.go:605-611 | unchained exactly when there are two events or more and none carries a `prev_hash` |
| Watch.FindingsMeaning | cmd/agent-conform/watchdir.go:463-516 | in one stream: its first break, high, exactly when it has breaks; else that nothing is chained, low, exactly when two or more events are all heads; and unless they are, each restart, medium exactly when a valid resume record names the line before it, else high |
| Watch.FindingsOnce | cmd/agent-conform/watchdir.go:463-516 | the findings of a pass are exactly what any stream has to say and was not reported, each key once |
| Watch.RefusalsExact | cmd/agent-conform/watchdir.go:443-457 | the refusals are exactly the refused records not remembered |
| Watch.WatchPass | cmd/agent-conform/watchdir.go:376-580 | what one pass leaves on disk and bus; 2 exactly when something could not be done, 0 exactly when nothing failed and no stream has an unreported break or refused record |
| Watch.PassMeaning | cmd/agent-conform/watchdir.go:518-569 | which fates of the writes and saves put an alert on the bus, in memory and in the state file, end the process, and are counted as failed |
| Watch.ACleanPassTellsAll | cmd/agent-conform/watchdir.go:463-580 | a pass that fails in nothing leaves everything there is to say of every stream on the bus or reported before, and every refused record remembered |
| Watch.ABreakIsAlerted | cmd/agent-conform/watchdir.go:463-580 | a pass nothing disturbs over a stream with an unreported break puts its alert on the bus, remembers it, and does not end in 0 |
| Watch.NoAlertIsLost | cmd/agent-conform/watchdir.go:518-557 | over any passes, failures and crashes, every chain finding in the state has its alert on the bus, and alerts are at most the findings remembered, crashes and failed saves |
| Watch.RepeatsAreBounded | cmd/agent-conform/watchdir.go:539-545 | alerts are at most distinct findings, crashes and failed saves; without those no finding is on the bus twice |
| Watch.AnUndisturbedPassSettles | cmd/agent-conform/watchdir.go:463-569 | a pass nothing disturbs puts every new finding on the bus and the next has nothing to say |
| Claims.WholeSecond | delegation/access.go:284-290 | a whole number of 64 bits reads as itself, and nothing else reads |
| Claims.AudienceHas | delegation/verify.go:241-253 | the loop answers whether the audience is or lists the wanted one |
| Access.AgentClaims | delegation/access.go:145-202 | accepted exactly when the token holds in true integer time; otherwise the refusal of the first failing check |
| Access.AgentRefusalMeans | delegation/access.go:145-202 | which refusal of an agent token, each exactly when all asked before it holds and it does not |
| Access.AgentHoldsWhenAllPass | delegation/access.go:133-144 | the ordered checks are together what an agent token must be |
| Access.VerifyRelayedAccess | delegation/access.go:266-278 | the same claims and revocation without proof or cache; otherwise the refusal of the first check that fails |
| Revocations.ClosedMeansKnown | delegation/revocations.go:390-412 | failing closed, not revoked says exactly: a list is held, young enough, and nothing live in it covers the token |
| Revocations.OpenMeansListed | delegation/revocations.go:390-412 | failing open, revoked says exactly: a live entry covers the token |

## Left out

- The file system, flock, fsync, ownership and modes: the lock is a mutex that a crash releases; a rename is atomic; the
  steps before the first write of an open are one step.
- The unlock that fails after a successful append: the write is acknowledged or not as the append itself was.
- A failed sidecar append whose truncation fails too: a failed write of a record leaves the file as it was, or the
  process dies with any part of the record on disk.
- JSON, RFC 8785, SHA-256, ECDSA, base64url, `net/url` and JOSE: functions with stated laws; the decoding of `act`, URL
  comparison and the conversion of a float too large for 64 bits are parameters.
- A stream that shrinks is in `CheckpointState.AdvanceIsRescan` and not in the runs, which only append.
- A record is assumed to stay within the 1 MiB record cap, and a stream within 2^53 lines.
- Exactly-once is over events with every required member, and restart counts over those whose line, with any hash
  stamped on it, fits the tail window; the no-break theorem asks neither.
- `bufio.Scanner` is taken as a split at LF that stops at the first line of 4 MiB or more.
- The closures passed to `run` are modelled by which lines they accept; what they compute is computed from the emitted
  list.
- Package `time`: instants are nanoseconds whose Unix second fits in 64 bits; a duration saturates at 64 bits.
- A poller that replaces the revocation list between two parties of one token: each verification asks one list.
- The text of refusals, the data of an alert besides key, severity and the line before a restart, and what is printed.
- The first bytes of a line over the cap are one more, last line to the verifier, as to the scanner; PartIsNotMisjudged is
  about the complete ones.
- Contents of the walk: a pass is given one verdict per file, each file once. The watcher's own alerts are verified in
  the next pass like any stream.
- HTTP, polling loops, signals, `ParseSnapshot`, key loading, `keyclient`, `passport`, schema validation: easy members or
  libraries.
