# LLPS: a Dafny model of the proxy's session engine, admission control, gate, audit log and configuration

LLPS is a TCP proxy with fixed tables and fixed buffers. This project models the parts of it
that carry a protocol, a parser or a state machine, and proves what they promise for every
input, every schedule and every run. `dafny verify dfyconfig.toml` checks the whole project.

| module | what it is |
|---|---|
| `Varint`, `Handshake`, `Gate` | the minimal-length VarInt reader (unsigned LEB128, section 7.6 of DWARF Version 5, limited to 32 bits), the handshake validator and the incremental preface loop around it, with the printer they answer to |
| `PayloadEcc`, `Hamming`, `Relay` | shadow SECDED codes over a payload buffer, and the extended Hamming code behind them; the preface flush, the two pumps, the watchdog's scrub and bit flips as one transition system |
| `Sessions`, `Lifecycle`, `Outcomes`, `SessionPool` | the acceptor, session owners, pumps, descriptors and the slot allocator, interleaved at every suspension point; what the audit trail then shows, and how it follows from the outcome of each session's calls; the slot array and free stack updated in place |
| `Admission` | the table of per-address rate buckets with lazy reclamation, and the unbounded map it refines |
| `Digits`, `Tokens` | decimal and hexadecimal text, lines and tokens, with the loops that read them |
| `AuditLog`, `AuditScan`, `AuditText`, `AuditRecovery`, `AuditRuns`, `AuditSink` | the audit writer down to its bytes, the restart scanner, their round trip over runs with restarts and lost records, and the sink as an object |
| `AuditContents` | the rows of a log against the events that were recorded |
| `AuditSoundness` | what acceptance by the scanner means for any file |
| `PxfVerifier`, `PxfSoundness`, `AuditAgreement` | the offline verifier, what its acceptance means for any text, and its agreement with the scanner on every log of the writer |
| `ConfigNumbers`, `ConfigPaths`, `ConfigModel`, `ConfigFile`, `ConfigLines`, `ConfigNames`, `ConfigRoundTrip` | number and path fields, the two validators, the line parser and the streaming reader, and the printer they answer to |

How to read the model:

- Tasks are cooperative on one worker (src/core/llps_state.c:146-156), so a transition is what a
  task does between two suspension points or less. Reads, sends, polls, spawns and joins are
  nondeterministic. A blocking audit record is two transitions, the append and the return.
- The relay is proved over any SECDED code with the contract of src/internal/llps_secded.h:23-32
  (`Secded.Sound`), and the repository's own code is proved to meet it (`Hamming.CodeIsSound`).
  The checksum of an audit record is a parameter over the bytes it covers, HMAC (section 2 of
  RFC 2104) a parameter from messages to 64 hexadecimal digits, and the attestation checksum and
  host-name syntax are parameters too. TMR copies and complement words are the identity.
- Integers are unbounded; where the code's width matters (32-bit and 64-bit counters, the
  wrapping subtraction in a number field, the wrapping evidence sequence) it is written out.
- `LLPS_EXPECT(false, continue)` in the slot allocator leaves only the macro's own block, not the
  loop around it; the two branches it guards are proved unreachable instead of modelled as a skip.

Four results differ from what a reader might expect:

- The 32-bit number field (src/config/yml_parser.c:449-495) is exact for every text if and only if
  its upper bound is at least 2. The yes-or-no fields have bound 1 and take `4294967296` for 0 and
  `4294967297` for 1 (`ConfigNumbers.ExactIffTwo`, `ConfigNumbers.TwoTo32IsAccepted`). Only texts of
  value 2^32 and above can be misread (`ConfigNumbers.ExactBelowTwoTo32`). The 64-bit form is always
  exact.
- The audit writer moves its counters before it reads the key file again, formats the record and
  writes it. No record is too long for its buffers (`AuditText.AuditLinesFit`,
  `AuditText.EvidenceLinesFit`), but a record whose key file no longer reads as the same key, or whose
  write puts nothing into the file, is lost with its number. The log then restarts as if the record
  had not been (with the file's counters), until another record of the same kind is appended before
  a restart: from then on the scanner refuses the file for good, and so does the offline verifier.
  That is exact for every run: the file is refused if and only if two such operations exist
  (`AuditRuns.RestartRecovers`, `AuditRuns.SpoiledIffGap`, `AuditAgreement.VerifierAgrees`), and
  without a loss everything is recovered (`AuditRuns.LosslessRunRecovers`).
- The offline verifier checks a tag against the row's texts as they stand, and takes numerals that
  the writer never prints, such as `01`. So an accepted tag is over the writer's message for the row's
  values if and only if every numeral of the row is printed as the writer prints it
  (`PxfSoundness.AcceptedTextIsSound`, `PxfSoundness.SignedIffCanonical`).
- The scanner compares evidence numbers after a 64-bit increment that wraps, so soundness numbers
  them modulo 2^64 (`AuditSoundness.AcceptedFileIsSound`); audit records cannot wrap.

## Model

| member | source | states |
|---|---|---|
| Varint.PrintVarint | tools/run_docker_prod_check.py:953-964 | the growing loop prints seven bits a byte, low bits first, the high bit set on all but the last |
| Varint.ReadVarint | src/core/llps_state.c:3010-3050 | the five-byte loop over the buffer returns what the recursive reader says: a value and its length, more bytes needed, or malformed |
| Varint.ReadFromIffEncoded | src/core/llps_state.c:3010-3050 | a number is read from the front of a buffer exactly when its own minimal encoding stands there and it fits, both directions |
| Varint.DecodeInvertsEncode | src/core/llps_state.c:3010-3050 | decoding what the printer printed, with anything behind it, gives the number back |
| Varint.DecodeIsInjective | src/core/llps_state.c:3010-3050 | two buffers that decode to the same number start with the same bytes: no second encoding is accepted |
| Varint.ReadFromIsStable | src/core/llps_state.c:3010-3050 | a verdict on a prefix, value or malformed, is not changed by bytes that follow |
| Handshake.SkipServerAddress | src/core/llps_state.c:3105-3134 | the address section is skipped exactly when its length is 1 to 255, it lies in the packet and its port is not zero |
| Handshake.ValidateBuffer | src/core/llps_state.c:3052-3178 | the offset-driven validator over the array agrees with the specification on every buffer |
| Handshake.PrintedIsAccepted | src/core/llps_state.c:3151-3178 | every admissible printed packet, whatever follows it, is valid |
| Handshake.AcceptedIsPrinted | src/core/llps_state.c:3151-3178 | every accepted buffer starts with the printed packet of some admissible handshake |
| Handshake.ValidIffPrinted | tools/run_docker_prod_check.py:967-992 | acceptance is exactly the printer's image: id 0, version 1 to 2^31-1, address of 1 to 255 bytes, nonzero port, next state 1 or 2 |
| Handshake.VerdictIsFinal | src/core/llps_state.c:3151-3178 | VALID and INVALID never change when bytes are appended |
| Gate.ReadPreface | src/core/llps_state.c:3180-3426 | a zero timeout accepts without reading; otherwise the read loop ends as its cycle-by-cycle specification says and leaves the client's bytes in place, and an accepted preface is sealed, every code matching its word, when payload codes are on |
| Gate.VerdictIsOneShot | src/core/llps_state.c:3289-3377 | under any schedule, an accept or a refusal is the one-shot verdict on the buffer's worth of the stream |
| Gate.ChunkingDoesNotMatter | src/core/llps_state.c:3340-3426 | without a timeout, for every split of the stream into reads and any spurious wakeups the budget allows, the loop accepts, refuses or meets the end exactly as one-shot validation says |
| Gate.ReadyCarriesAll | src/core/llps_state.c:3249-3338 | a ready preface is every byte delivered until then, valid as a whole with the gate on, and no shorter part was |
| Gate.GateOffTakesFirstChunk | src/core/llps_state.c:3298-3301 | without the gate the first chunk of at least one byte is the preface, with exactly its length |
| PayloadEcc.SealInPlace | src/core/llps_state.c:1192-1290 | sealing pads the last word with zeros and writes one code a word, and nothing else |
| PayloadEcc.RepairInPlace | src/core/llps_state.c:1292-1323 | the word-by-word repair over the arrays equals the specification, also when it stops at an uncorrectable word |
| PayloadEcc.RepairRestores | src/core/llps_state.c:1292-1323 | with at most two flips a codeword, repair succeeds exactly when no codeword has two, and then every word and code is as sealed |
| PayloadEcc.RepairOfConsistent | src/core/llps_state.c:1292-1323 | repairing an image without a flip changes nothing |
| PayloadEcc.DoubleFlipIsCaught | src/core/llps_state.c:1292-1323 | two flips in one codeword make the repair fail, whatever happened to the other words |
| PayloadEcc.SealRepairRoundTrip | src/core/llps_state.c:1132-1323 | seal, at most one flip a codeword, repair: payload and codes come back for every length and capacity up to 4096, multiples of eight or not |
| Hamming.MasksArePositions | src/support/llps_secded.c:56-65 | each of the seven parity masks has exactly the bits of the data whose Hamming position carries its weight |
| Hamming.FindDataIndex | src/support/llps_secded.c:79-99 | the counting loop names the data bit at a position, skipping powers of two |
| Hamming.DataIndexOfPosition | src/support/llps_secded.c:79-99 | looking up a data bit's own position gives that bit back |
| Hamming.CheckCompares | src/support/llps_secded.c:56-77 | each check over all 72 bits compares the check bit that the data asks for with the one stored |
| Hamming.SyndromeOfFlip | src/support/llps_secded.c:189-232 | after one flip of a sealed word the syndrome is the flipped bit's column and the overall parity is wrong |
| Hamming.SyndromeOfTwo | src/support/llps_secded.c:189-232 | after two flips the syndrome is not zero and the overall parity is right |
| Hamming.RepairsOne | src/support/llps_secded.c:151-187 | one flip anywhere in data or code is corrected to the sealed word and code |
| Hamming.CodeIsSound | src/internal/llps_secded.h:23-32 | the repository's encoder and repair meet the whole contract: no flip is clean, one is corrected, two are reported, for every word |
| Hamming.RelayWithThisCode | src/core/llps_state.c:3739-3995 | the stream result for the relay with this very code, with nothing assumed about it |
| Relay.StepKeeps | src/core/llps_state.c:3180-3542 | every transition of either direction, of the scrub and of a flip keeps memory near its sealed form, the step budget and the stream equation |
| Relay.RunKeepsInv | src/core/llps_state.c:3662-3995 | the invariant holds in every state of every run from a fresh session |
| Relay.StreamIsPreserved | src/core/llps_state.c:3379-3542 | for every schedule of short reads, short sends, full sockets, scrubs and flips, what was sent is a prefix of the bytes that the one peer handed over, read off the schedule alone, as long as the other peer took, and all of them at every loop head; a direction ends only because a peer left, and gives up only after more full sockets than the budget |
| Relay.ReadIsOwed | src/core/llps_state.c:3742-3790 | a pump read is always possible at the loop head, and all of its bytes are then owed |
| Relay.PrefaceIsOwed | src/core/llps_state.c:3180-3207 | a ready preface is owed to the server as a whole; an empty one starts the pump |
| Relay.NoFalseAlarm | src/core/llps_state.c:3792-3865 | in every run with at most one flip a codeword neither direction is ever stopped for a payload fault |
| Relay.DoubleFlipStopsTheLane | src/core/llps_state.c:3792-3865 | a write step sends the next owed bytes exactly when no codeword has two flips, and otherwise stops with nothing sent |
| Relay.ScrubOfFaultFreeRun | src/core/llps_state.c:1787-1862 | at every scheduling point of a run without flips each buffer agrees with its codes up to the sealed length, so a scrub succeeds and changes nothing |
| Relay.ScrubHeals | src/core/llps_state.c:1787-1862 | the scrub says yes exactly when no codeword of either buffer has two flips, and then both buffers are as sealed |
| Relay.DrainBudget | src/core/llps_state.c:3456-3508 | iterations never exceed bytes sent plus retries spent, so the check for leftover bytes cannot fire |
| Relay.BudgetIsTight | src/core/llps_state.c:74-75 | some peer needs every step of the budget: one step earlier a byte is owed, and the last step sends it |
| Relay.WriteAll | src/core/llps_state.c:3810-3887 | the drain loop makes attempts in order, each of which sends owed bytes or spends a retry, sends a prefix of the sealed payload, all of it exactly when it gives no reason, and stops only for the reason its last attempt gives: a double flip, a full socket with the whole budget spent, or a failed send; its leftover branch is dead |
| Relay.WillingPeerGetsAll | src/core/llps_state.c:3810-3887 | the converse: within the retry budget, with no failed send and no double flip, the loop sends everything |
| Relay.OneExplanation | src/core/llps_state.c:3810-3887 | the attempts determine how many are made and how the loop ends |
| Admission.RateTable.FindBucket | src/core/llps_state.c:1544-1576 | the scan over the bucket array returns the match or the first usable slot, reclaiming one expired bucket on its way |
| Admission.RateTable.LimitExceeded | src/core/llps_state.c:1578-1728 | the whole decision on the table updated in place: disabled, nameless, bad clock, matched, new or full |
| Admission.FindReclaims | src/core/llps_state.c:1535-1576 | the scan drops only expired buckets of other addresses and keeps the rest |
| Admission.FindOffersFree | src/core/llps_state.c:1544-1576 | no slot is found exactly when every bucket is live, unexpired and another address's |
| Admission.TableRefinesMap | src/core/llps_state.c:1535-1679 | each decision of the 256-entry table equals that of an unbounded map from address to window and count, except that a new address is refused exactly when all buckets are live and unexpired, and the refinement is kept |
| Admission.RunKeepsInv | src/core/llps_state.c:1544-1728 | over every run of requests of all addresses under a monotone clock, the table refines the map and each window has counted at most the limit |
| Admission.AdmissionsAreSpread | src/core/llps_state.c:1578-1679 | limit + 1 consecutive admissions of one address lie in two windows, and 2 * limit + 1 span more than a window's length |
| Admission.TwiceTheLimit | src/core/llps_state.c:1681-1728 | any interval of one window's length admits at most 2 * limit sessions of one address, over any run of all addresses, counted on the decisions themselves |
| Admission.AdmittedIsCounted | src/core/llps_state.c:1681-1728 | an admitted request of a named address is always in the map, so no admission escapes the count |
| Admission.AdmissionsAreComplete | src/core/llps_state.c:1578-1728 | the admissions that the invariant lists in an interval are as many as the run decided |
| Admission.OthersLeaveNoMark | src/core/llps_state.c:1681-1728 | while the limit is zero, and for a nameless client, every request is admitted and leaves the table as it was, over every run |
| Sessions.EffectKeepsPc | src/core/llps_state.c:4099-4361 | each step of a session's owner keeps its backend descriptor, its connected flag and its failure in step with where it stands |
| Sessions.EffectAndPumps | src/core/llps_state.c:4266-4314 | an owner leaves the part of its program in which pumps may run only after the join, in the half-spawned case too, and never frees from inside it |
| Sessions.PopIsFree | src/core/llps_state.c:2960-2976 | the popped index is in range and its slot is free, so neither guard of the pop loop fires |
| Sessions.PushIsAccepted | src/core/llps_state.c:1748-1771 | returning an active slot passes all three guards |
| Sessions.StepKeepsAlloc | src/core/llps_state.c:2903-2979 | every transition keeps the stack equal to the set of free slots, each once |
| Sessions.StepKeepsPumps | src/core/llps_state.c:4266-4361 | every transition keeps each running pump on the session it was spawned for |
| Lifecycle.RunKeepsInv | src/core/llps_state.c:4589-4672 | all seven invariants hold in every reachable state of the interleaved tasks |
| Lifecycle.NoSlotLostOrShared | src/core/llps_state.c:2809-2822 | at each scheduling point the stack is distinct, in range and exactly the free slots, and free plus active is the pool size |
| Lifecycle.PumpsNeverTouchWhatIsGone | src/internal/llps_internal.h:146-151 | while a pump runs, its slot is still its own session's and off the stack, both descriptors are open and its own session's, and no twin pump runs |
| Lifecycle.RequestsAreNumberedInOrder | src/core/llps_state.c:171-184 | the accept and drop records carry 1, 2, 3 and so on without a gap; only the newest number may not be recorded yet |
| Lifecycle.EveryRequestLivesOneLife | src/core/llps_state.c:4099-4361 | a request's records are a prefix of one of five words and the whole word once the code is done with it: one close after an accept, and no backend connection after a failed preface |
| Lifecycle.SessionCapHolds | src/core/llps_state.c:4524-4672 | in every reachable state no named address holds more sessions than its nonzero cap |
| Lifecycle.WhoGetsASlot | src/core/llps_state.c:4524-4672 | in every reachable state an arrival gets a free slot, with its own address and descriptor, exactly when rate and setup allow it, a slot is free, and its address holds fewer sessions than its cap, if it has a name and a cap; otherwise it is dropped |
| Lifecycle.NoDescriptorLeaks | src/core/llps_state.c:2903-2945 | in every reachable state each open descriptor is the client's or the backend's of an open session of its own request, or the one being dropped |
| Lifecycle.EndedHoldsNothing | src/core/llps_state.c:2928-2933 | once the code is done with a request none of its descriptors is open |
| Outcomes.TrailFollowsOutcomes | src/core/llps_state.c:4099-4361 | at every point of every run a request's records are exactly what the outcomes of its own session's calls, run through a straight list of steps with one way out, say; without a session at most a drop |
| Outcomes.FailureHasItsCause | src/core/llps_state.c:4099-4264 | a recorded failure stands for the first call of that session that failed, and is marked as the preface's exactly when that call was the preface |
| Outcomes.GoodSessionsConnect | src/core/llps_state.c:4330-4360 | a session whose calls all go well ends as accepted, connected, closed, and both of its pumps ran |
| Outcomes.PumpsAreLaunched | src/core/llps_state.c:4266-4314 | a pump of a direction runs for a request exactly when its owner got as far as spawning it |
| Outcomes.OwnersMove | src/core/llps_state.c:4099-4361 | in every reachable state an owner can take its next step unless it joins pumps that still run or its new descriptor is not fresh |
| SessionPool.Pool.constructor | src/core/llps_state.c:2809-2822 | the pool starts as the specification's initial stack and slots |
| SessionPool.Pool.FreeListContains | src/core/llps_state.c:1730-1746 | the scan finds exactly the members of the stack |
| SessionPool.Pool.ReturnToFreelist | src/core/llps_state.c:1748-1771 | pushes the slot unless a guard refuses it, as the specification does |
| SessionPool.Pool.FindFree | src/core/llps_state.c:2947-2979 | pops the top, a free slot in range, and fails exactly when every slot is active |
| SessionPool.Pool.Assign | src/core/llps_state.c:4614-4651 | hands out a slot that was free and keeps the allocator's invariant, or changes nothing |
| SessionPool.Pool.Close | src/core/llps_state.c:2903-2945 | frees an active slot and pushes it once; closing a free slot changes nothing |
| SessionPool.Pool.LimitExceeded | src/core/llps_state.c:1451-1492 | the counting loop compares the number of open sessions of the address with the cap |
| Digits.ReadU64 | src/audit/llps_ip_audit.c:790-813 | the digit loop accepts exactly the digit strings whose value fits 64 bits, and returns that value |
| Digits.ReadHex32 | src/audit/llps_ip_audit.c:850-874 | the nibble loop accepts exactly 0x and eight digits and loses none of their bits |
| Digits.DecimalRoundTrip | src/audit/llps_ip_audit.c:790-813 | a printed 64-bit number reads back as itself |
| Tokens.ReadToken | src/audit/llps_ip_audit.c:749-788 | the cursor loop returns the next token when it is shorter than its buffer, and the text after it |
| Tokens.FieldsOfJoin | src/audit/llps_ip_audit.c:1140-1186 | fields printed between blanks are read back one for one |
| Tokens.CutUnlines | src/audit/llps_ip_audit.c:1650-1688 | whole lines appended to a text that ends a line are read back as exactly those lines |
| AuditScan.ReadFile | src/audit/llps_ip_audit.c:1650-1743 | the character loop with its bounded line buffer accepts the files, and returns the counters, that the fold over lines says |
| AuditText.AuditMessageFits | src/audit/llps_ip_audit.c:1909-1956 | the authenticated message of any safe record is shorter than its buffer |
| AuditText.AuditLinesFit | src/audit/llps_ip_audit.c:2367-2468 | the message, tag comment, tag row and whole text of any safe record fit their buffers, so formatting never fails after the counters moved |
| AuditText.EvidenceLinesFit | src/audit/llps_ip_audit.c:1958-2005 | the same for an evidence record |
| AuditRecovery.AuditRowRoundTrip | src/audit/llps_ip_audit.c:1140-1186 | the scanner parses a printed audit row to the row |
| AuditRecovery.EndpointRoundTrip | src/audit/llps_ip_audit.c:1253-1299 | the same for an endpoint row of each role |
| AuditRecovery.MacRoundTrip | src/audit/llps_ip_audit.c:1301-1332 | the same for a tag row |
| AuditRecovery.EvidenceRowRoundTrip | src/audit/llps_ip_audit.c:1405-1448 | the same for the nineteen fields of an evidence row |
| AuditRecovery.ScanAuditRecord | src/audit/llps_ip_audit.c:1076-1251 | scanning one printed record from between records moves the counters exactly as the writer moved them |
| AuditRecovery.ScanEvidenceRecord | src/audit/llps_ip_audit.c:1450-1548 | the same for an evidence record |
| AuditRecovery.ScanAuditGap | src/audit/llps_ip_audit.c:1188-1251 | a printed record that does not continue the counts stops the scan |
| AuditRecovery.ScanEvidenceGap | src/audit/llps_ip_audit.c:1450-1548 | the same for evidence out of sequence |
| AuditRecovery.ScanHeader | src/audit/llps_ip_audit.c:35-52 | the header alone scans to zero counters |
| AuditRuns.RecordKeeps | src/audit/llps_ip_audit.c:2349-2533 | a record gets a number exactly when its tokens are safe and a number is left, else nothing changes; with a number both of its counters move, the text is appended exactly when the key reads and the write goes through, and the call says yes exactly when it was synced too; the file stays in step with what was appended, and is spoiled exactly by a record behind a lost one |
| AuditRuns.RecordEvidenceKeeps | src/audit/llps_ip_audit.c:2551-2719 | the same for evidence |
| AuditContents.RecordShowsTheEvent | src/audit/llps_ip_audit.c:2302-2468 | what a record adds to the log is one audit row with the event's own kind, request, times, session and reason, four endpoint rows with the event's own endpoints, or the proxy's where it has none, the checksum over them and, under a key, one tag |
| AuditContents.EvidenceShowsItself | src/audit/llps_ip_audit.c:2535-2660 | what an evidence record adds is one row with its own name and thirteen numbers, its checksum and, under a key, one tag |
| AuditContents.AcknowledgedIsShown | src/audit/llps_ip_audit.c:2487-2533 | a record that was acknowledged is in the file |
| AuditContents.LogTellsTheRun | src/audit/llps_ip_audit.c:2302-2719 | the rows of the log of any run are those of exactly the events and the evidence that got into the file, in order |
| AuditRuns.RestartKeeps | src/audit/llps_ip_audit.c:2219-2271 | a restart takes the file's counters, the writer's own where nothing was lost and smaller ones where something was, and is refused exactly when the file is spoiled |
| AuditRuns.RestartRecovers | src/audit/llps_ip_audit.c:1550-1743 | after any interleaving of records, evidence and restarts with any losses, the scanner refuses the file exactly when it is spoiled, and otherwise returns counters that add up and equal the writer's exactly where nothing was lost since the last restart; one more restart resumes with them |
| AuditRuns.SpoiledIffGap | src/audit/llps_ip_audit.c:2349-2415 | a file is spoiled if and only if some record took its number without reaching the file and a later one of its kind reached it with no restart between them |
| AuditRuns.LosslessRunRecovers | src/audit/llps_ip_audit.c:1550-1743 | when every record reaches the file, every restart succeeds and the scanner returns exactly the writer's sequence, evidence sequence and counts by kind, which add up |
| AuditSink.Sink.Init | src/audit/llps_ip_audit.c:2219-2271 | with auditing on, a readable key, a file that scans and hosts that fit, every counter is set from the file; in every other case the sink stays shut with zero counters, and only the disabled configuration counts as success; a new file gets its header |
| AuditSink.Sink.NextSeq | src/audit/llps_ip_audit.c:1753-1770 | the counter moves by one until the last 64-bit number, which it refuses to pass |
| AuditSink.Sink.NextEventNo | src/audit/llps_ip_audit.c:1791-1815 | the count of the event's own kind moves by one and no other does |
| AuditSink.Sink.Append | src/audit/llps_ip_audit.c:2508-2533 | the method's effect on file and counters is the writer's, in every case of key and disk; a shut sink says yes and does nothing |
| AuditSink.Sink.AppendEvidence | src/audit/llps_ip_audit.c:2535-2719 | the same for evidence |
| AuditSoundness.SealedGroup | src/audit/llps_ip_audit.c:1076-1126 | a record that passes the final check has exactly four endpoint rows, one a role, under its checksum and, with a key, its tag |
| AuditSoundness.LineKeeps | src/audit/llps_ip_audit.c:1550-1582 | every accepted line keeps the scanner's state equal to what the rows so far say |
| AuditSoundness.AcceptedFileIsSound | src/audit/llps_ip_audit.c:1188-1299 | any accepted file has audit rows 1 to n without a gap, total equal to sequence, event number equal to the running count of its kind, each role exactly once a record, right checksums, and with a key exactly one right tag for each audit and each evidence row; every line is ignorable or a row of its kind; the counters are the counts of those rows and add up |
| PxfVerifier.FindRelated | tools/verify_pxf_audit_mac.py:123-139 | the backward search finds the newest record with the sequence text, without a tag yet where a tag is looked for |
| PxfVerifier.Parse | tools/verify_pxf_audit_mac.py:142-334 | the line loop builds the document of the specification or fails |
| PxfVerifier.Check | tools/verify_pxf_audit_mac.py:514-677 | the record and evidence loops accept exactly when every entry verifies, and report their numbers |
| PxfSoundness.AcceptedTextIsSound | tools/verify_pxf_audit_mac.py:514-677 | any accepted text has records 1 to n in order, each with exactly one endpoint row a role, the checksum of its parsed values and, under a key, exactly one tag row with the key's fingerprint and the tag of the row's texts; evidence likewise; no stray endpoint or tag row; and the report counts those rows |
| PxfSoundness.SignedIffCanonical | tools/verify_pxf_audit_mac.py:486-511 | those texts are the writer's message for the row's values if and only if every numeral is printed as the writer prints it |
| PxfSoundness.EvidenceSignedIffCanonical | tools/verify_pxf_audit_mac.py:460-483 | the same for evidence |
| AuditAgreement.MessagesAgree | tools/verify_pxf_audit_mac.py:486-511 | the message that the verifier joins from the file's fields is the one that the writer authenticated |
| AuditAgreement.RecordVerifies | tools/verify_pxf_audit_mac.py:380-419 | a printed record passes the verifier's sequence, role, checksum and tag checks |
| AuditAgreement.EvidenceRecordVerifies | tools/verify_pxf_audit_mac.py:426-483 | the same for an evidence record |
| AuditAgreement.VerifierAgrees | tools/verify_pxf_audit_mac.py:514-677 | after any run of records, evidence and restarts with any losses, the verifier, with sequential numbers required and the log's key, accepts the file exactly when the scanner does and it holds an audit record, and reports the scanner's totals |
| AuditAgreement.LosslessRunVerifies | tools/verify_pxf_audit_mac.py:514-677 | without a loss the totals reported are the writer's |
| ConfigNumbers.ReadU32 | src/config/yml_parser.c:449-495 | the digit loop on 32 bits, wrapping subtraction included |
| ConfigNumbers.ExactFromTwo | src/config/yml_parser.c:449-495 | for every text and every bound from 2 up, the field reads the number that the text says when it is in range, and refuses everything else |
| ConfigNumbers.TwoTo32IsAccepted | src/config/yml_parser.c:482 | with bound 0 or 1 the text of 2^32 is read as 0, and with bound 1 the text of 2^32 + 1 as 1 |
| ConfigNumbers.ExactIffTwo | src/config/yml_parser.c:449-495 | the field is exact on all texts if and only if its bound is at least 2 |
| ConfigNumbers.ExactBelowTwoTo32 | src/config/yml_parser.c:449-495 | whatever the bound, every text that is not a number or whose value is below 2^32 is read exactly |
| ConfigNumbers.Exact64 | src/config/yml_parser.c:497-541 | the 64-bit field is exact for all texts and bounds |
| ConfigPaths.FindParent | src/config/yml_parser.c:858-877 | the component loop finds a parent component exactly when two dots stand alone between separators |
| ConfigPaths.PathIsSafe | src/config/llps_config_validate.c:86-125 | the runtime's path check accepts exactly the safe paths, and the empty one where allowed |
| ConfigModel.LimitsAgree | src/config/llps_config_validate.c:160-222 | limits and paths that pass the file reader's checks pass the runtime's |
| ConfigModel.PolicyAgrees | src/config/llps_config_validate.c:224-328 | the same for platform policy and domain bindings |
| ConfigModel.FingerprintsAgree | src/platform/llps_platform.c:27-132 | the same for the attestation fingerprint, with the reader enforcing it |
| ConfigModel.DomainTestsAgree | src/platform/llps_domain.c:15-76 | the tests of domain identifiers in the file reader and the separate ones of the platform code decide alike: all zero, distinct, disjoint sets, avoiding an identifier |
| ConfigModel.EccAgrees | src/config/llps_config_validate.c:239-259 | the reader's and the runtime's separately written software ECC rules accept the same configurations |
| ConfigModel.NumaAgrees | src/config/llps_config_validate.c:261-281 | the same for the software NUMA rules |
| ConfigModel.ReaderImpliesRuntime | src/config/yml_parser.c:1159-1537 | a configuration of parsed or default fields that the enforcing reader accepts passes the runtime validator |
| ConfigModel.SmallestIsAccepted | src/config/yml_parser.c:1485-1537 | some configuration of parsed fields passes the enforcing reader, so the agreement is not empty |
| ConfigFile.FeedChunk | src/config/yml_parser.c:2379-2457 | one read's bytes, fed one at a time, until the first failure |
| ConfigFile.LoadReads | src/config/yml_parser.c:2325-2508 | the load's outcome, configuration or status and line, is a function of the file's bytes alone, however reads and interruptions cut them |
| ConfigFile.FindKey | src/config/yml_parser.c:1068-1090 | the search through the table of names returns the key of the first row with the name |
| ConfigNames.NameIsRead | src/config/yml_parser.c:1011-1066 | each key's documented name is read as that key, and the target's second name as the target |
| ConfigNames.OnlyNamesAreRead | src/config/yml_parser.c:1011-1090 | no other text is read as a key |
| ConfigRoundTrip.LineReadsIffPrinted | src/config/yml_parser.c:2117-2214 | a line assigns a text to a key exactly when it is one of the key's names, a colon and the text, with any blanks around them, quotes where the text needs them, and perhaps a comment |
| ConfigRoundTrip.TakenAsMeant | src/config/yml_parser.c:1539-2115 | whatever text a field takes is taken for what it says, number, word, host or path, apart from numbers of 2^32 and above in a yes-or-no field |
| ConfigRoundTrip.NumberIsTaken | src/config/yml_parser.c:449-541 | every number within a field's bounds can be printed and is read back |
| ConfigRoundTrip.PrintedFileLoads | src/config/yml_parser.c:2289-2508 | a file printed from settings, one line each in any order and layout, loads to the configuration that holds for every printed key what its line says and for every other key its default, unless a required key is missing or that configuration does not pass validation |
| ConfigLines.CommitsCommute | src/config/yml_parser.c:2117-2214 | two lines that both stand may be exchanged |
| ConfigLines.FeedLine | src/config/yml_parser.c:2379-2457 | one whole line stands exactly when its text is plain, a carriage return stands only at its end, the file's limits hold and its entry commits |
| ConfigLines.FeedLines | src/config/yml_parser.c:2289-2457 | a file of whole lines is read to its end exactly when each line stands and the limits hold |
| ConfigLines.LineOrderDoesNotMatter | src/config/yml_parser.c:2289-2508 | any permutation of the newline-terminated lines of a file that loads also loads, to an equal configuration |
| ConfigLines.LoadedIsRuntimeValid | src/config/llps_config_validate.c:330-345 | every file that loads with the fingerprint enforced passes the separately written runtime validator |

## Left out

- CRC-32, HMAC and SHA-256 bodies, TMR banks and votes, complement words: taken as parameters or as the identity.
- Hamming.CodeIsSound: covers the 64-bit form that payload buffers use; the narrower forms and the folding that computes a parity are not modelled.
- Sockets, DNS, LLAM spawning, polling and joining: nondeterministic steps; a join is taken to return only after its tasks ended, and spawned tasks to run the given function.
- File modes, failures to open or lock the log or to write its header, log output, and the three older header forms that a log may start with.
- AuditRuns.RecordKeeps: a write puts the whole text into the file or nothing; a torn append is not modelled, because it is outside what the restart scanner promises.
- Lifecycle.EveryRequestLivesOneLife: audit appends are taken to succeed; the paths that close a session because its record could not be written are not modelled.
- The watchdog's idle timeout and forced shutdown: they only shut sockets down, which the model already covers by pumps that may end at any time.
- Relay.StreamIsPreserved: half-closing and the pump's yield and integrity-check intervals are not modelled, because they move no payload byte.
- PxfVerifier.Check: decimal digits are the ASCII ones, while Python's test also takes other Unicode digits; options other than sequential numbers and the key are not modelled.
- Host-name and IPv4 syntax in configuration values: a parameter of the loader, so its results hold for any such syntax.
- Comment stripping, trimming and quoting in the configuration, and the parsed audit rows, are functions on text instead of in-place edits of a line buffer.
- ConfigFile.LoadReads: opening and closing the file and read errors are not modelled; interrupted reads are.
- Readiness gates, synthetic ECC, fault and NUMA patrols, EDAC and NUMA probes, command-line handling, benchmarks and test scripts.
