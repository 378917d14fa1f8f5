# Agent Context Broker: verified models

Dafny models of the parts of the Agent Context Broker that other parts rely on without checking again, with proofs of
what they promise. `dafny verify dfyconfig.toml` checks everything.

The project follows the program's files.

| files | program | what is proved |
|---|---|---|
| `EventChain`, `ReferenceAppend`, `IdempotencyIndex`, `EventStore`, `CrashRecovery`, `ConcurrentReader` | `src/event-store.mjs` | the hash-chained store: appends refine a scan of the chain, crashes lose and repeat nothing, repair keeps the longest good chain, readers without a lock only see committed chains |
| `LifecycleOutbox` | `src/lifecycle-events.mts` | at-least-once delivery becomes exactly-once |
| `EmergencyLedger`, `EmergencyGrants`, `EmergencyRuns` | `src/emergency.mts` | the grant ledger: its checkpoint, its fold, and grant safety over every run |
| `ClaimWithdrawal` | `src/claims-withdraw.mts`, `src/context-query.mjs` | a withdrawal commits at one write, for stale and fresh readers alike |
| `LineScanner`, `LineInventory` | `src/codex-inventory.mjs` | resumable scans count every complete line once |
| `ReceiptScanner` | `src/notice-receipts.mjs` | the token scan refuses exactly the repeated names of the parsed value |
| `NoticeBudget` | `src/context-notices.mjs`, `src/context-query.mjs` | byte budgets are exact and keep envelopes whole |
| `DecisionTrace` | `src/context-query.mjs`, `src/context-trace.mts` | the trace tells the truth about a selection and adds up |
| `ClaimsExport` | `src/claims-export.mts` | paging gives every current claim once |
| `WindowsQuoting` | `distillation/src/windows-launcher.cs` | quoted arguments are read back as they were |

How the models are built:

- Digests are values: an event id is a datatype that wraps what was hashed, so equal ids mean equal contents without an
  assumption. Strings that are no such digest are separate constructors. Files are what their text parses to, with a
  constructor for text that does not parse, and `torn` for a text that was cut off.
- Code that changes files or objects in place is a class with those files as fields. Every file write is one step, and a
  field `log` keeps all states of the disk. A crash is a stop after any step: it leaves a logged state. Where the program
  appends several lines to a file, every shorter part and a torn last line are states too.
- Clocks, random ids and other processes are parameters, so every statement holds for all their values.
- A method is proved against a function or a predicate on values, and lemmas then say what that is worth.

Behaviour that a reader might not expect. Each is stated exactly, for all inputs:

- An accepted index file whose keys miss a key of the chain is not detected. `ReferenceAppend.CacheTransparency`: the append
  agrees with a plain scan if and only if the index covers the batch's keys that are on the chain; if it does not, the
  chain no longer verifies (`ReferenceAppend.UncoveredKeyExample`). No run of the store itself gets there
  (`EventStore.EventStore.AppendBrokerEvents` keeps `CacheSound`).
- A truncating repair that stops between two of its renames cannot be repeated. `CrashRecovery.RepairAgain`: a second repair
  accepts the records if and only if none or all of the files had been moved. `CrashRecovery.HalfMovedExample` is a chain of
  three records where it fails.
- A retry after a crash, without a repair in between, runs if and only if records and head are in step
  (`CrashRecovery.RetryWithoutRepair`).
- `openEmergency` writes a grant id that was used before, and then the ledger no longer verifies
  (`EmergencyGrants.EmergencyStore.OpenEmergency`, `EmergencyGrants.ReusedIdExample`). The caller that leaves the id out gets
  a random one.
- A crash right after an emergency record is written is recovered if and only if the ledger was new, or the checkpoint named
  the record before (`EmergencyGrants.LagIsOneRecord`); `EmergencyGrants.SecondStopExample` is a second stop in a row.
- `addCount` counts in an ordinary object. A kind of line named like a property every JavaScript object inherits
  (`toString`, `constructor`, `__proto__` and nine others) gets no number, or none at all (`LineScanner.CountIsRight`,
  `LineScanner.InheritedKindExample`).
- A scan from the end of a large file leaves off at a line boundary if and only if its window holds a newline or began
  right after one (`LineScanner.TailEndsAtBoundary`, `LineScanner.NoNewlineExample`).
- A file that is rewritten behind the same first line is not noticed unless it has become shorter. After a run its entry covers
  it if and only if what was scanned before is still there (`LineInventory.CaughtUpExactly`,
  `LineInventory.RewrittenUnnoticed`).
- A scope whose remaining claims have no canonical reference loses them all in a withdrawal
  (`ClaimWithdrawal.StaleAndFreshAgree`, `ClaimWithdrawal.LastReferenceExample`). Publishing refuses claims without
  references (`src/reconciliation.mjs:482-487`), so such a scope can only come from an older or an edited state; otherwise the
  rest is always kept (`ClaimWithdrawal.PublishedKeepsRest`).
- `Quote` is made for arguments. A program name is read by simpler rules, and comes back unchanged if and only if it holds no
  double quote mark and does not end in a backslash (`WindowsQuoting.ProgramRoundTrip`, `WindowsQuoting.BackslashExample`).

## Model

| member | source | states |
|---|---|---|
| EventChain.HeadCommitment | src/event-store.mjs:268-282 | two chains that link have the same head hash if and only if they hold the same records |
| EventChain.LastIdDeterminesChain | src/event-store.mjs:223-236 | a record commits to its whole past: chains that link and end in one id are equal |
| EventChain.AgreeBefore | src/event-store.mjs:223-236 | records of two linked chains that agree on an id agree on their place and on everything before it |
| EventChain.HeadPinsPrefix | src/event-store.mjs:268-282 | a head is the head of one prefix of a chain only |
| EventChain.LinkedHasNoParallelChain | src/event-store.mjs:242-266 | a linked chain has one file per sequence, all of them parsable |
| EventChain.ExtendLinked | src/event-store.mjs:523-549 | a freshly built event links to the chain it was built for |
| EventChain.ExtendDistinct | src/event-store.mjs:310-331 | one more record keeps the keys distinct exactly when its key is new |
| EventChain.ValidMeansWritten | src/event-store.mjs:223-236 | a stored record passes the checks at its place if and only if it is one that a writer at that place could have written for a valid input |
| EventChain.HeadNamesTip | src/event-store.mjs:268-282 | the head that matches a linked chain counts its records and repeats id, link and time of the last one; for no records there is no head file |
| EventChain.HashIsHex | src/event-store.mjs:17-17 | a key is 64 of the sixteen lower-case hexadecimal digits |
| EventChain.ParallelExactly | src/event-store.mjs:242-266 | a listing is refused if and only if two files of it have one sequence |
| ReferenceAppend.FindMeaning | src/event-store.mjs:562-568 | the scan finds a record that carries the key exactly when one is there |
| ReferenceAppend.PlainKeepsVerified | src/event-store.mjs:593-645 | appends only extend the chain, keep the full check true, and put exactly the keys of the inputs on it |
| ReferenceAppend.RepliesAreLookups | src/event-store.mjs:605-636 | every reply is the event that the final chain holds for that key |
| ReferenceAppend.RepliesSayReplay | src/event-store.mjs:605-636 | a reply says replay exactly when the key was on the chain before the batch |
| ReferenceAppend.PlainAnswers | src/event-store.mjs:523-636 | every input is answered with the old record of its key, or else with a new record on disk that has its key, body and payload and the time of the call; the new records are those of the replies that are no replays, in the order of the inputs |
| ReferenceAppend.SplitBatch | src/event-store.mjs:574-646 | cutting a batch in two changes neither the chain nor the replies |
| ReferenceAppend.PartitionIrrelevant | src/event-store.mjs:562-646 | every partition of the inputs into batches gives the same chain and the same replies |
| ReferenceAppend.RetryCompletes | src/event-store.mjs:574-646 | from any chain between the one before and the one after a batch, the same batch completes to the same chain and answers with the same events |
| ReferenceAppend.CoveringCacheAgrees | src/event-store.mjs:605-636 | looking up only keys that the cache knows agrees with a scan when the cache covers the batch |
| ReferenceAppend.CacheTransparency | src/event-store.mjs:605-636 | the cached append is the plain one if and only if the cache covers the keys of the batch that are on the chain; if and only if it does, the chain still verifies |
| ReferenceAppend.UncoveredKeyExample | src/event-store.mjs:605-636 | one record, and a cache that does not know its key: the append leaves a chain that fails verification |
| IdempotencyIndex.CountsAreBijection | src/event-store.mjs:455-486 | the four counts accept exactly the indexes that pair the sequences 1 to n with n distinct keys |
| IdempotencyIndex.CoveringRowsAreExact | src/event-store.mjs:437-488 | an accepted index whose keys include those of the chain has exactly the keys of the chain |
| IdempotencyIndex.RowsOfChain | src/event-store.mjs:422-435 | the rows of a chain list its keys in sequence order |
| IdempotencyIndex.IndexMapKeys | src/event-store.mjs:455-471 | a key is in the map exactly when a row has it, and the map leads to the sequence of such a row |
| IdempotencyIndex.SaneRowExactly | src/event-store.mjs:463-466 | a row is accepted exactly when its key is a digest and its sequence a positive safe integer |
| EventStore.TipMeaning | src/event-store.mjs:343-399 | a tip the writer accepts is the head of the records as they are, and counts them |
| EventStore.CommittedTip | src/event-store.mjs:506-509 | the tip of a committed store is accepted |
| EventStore.HeadCommitsOnce | src/event-store.mjs:268-308 | a published head matches a longer chain only if nothing was added |
| EventStore.ReadBySequenceFinds | src/event-store.mjs:556-560 | a record reached by sequence with the right key is the one a scan finds |
| EventStore.ReadBySequenceCases | src/event-store.mjs:556-560 | a parallel chain is refused; otherwise the file of the sequence is read, if there is one |
| EventStore.InsertMeaning | src/event-store.mjs:551-554 | a record file takes its place in the sorted listing, in place of one of its name |
| EventStore.RebuiltIndexFinds | src/event-store.mjs:422-435 | the rebuilt index leads every key of a linked chain to its record |
| EventStore.RowsLead | src/event-store.mjs:422-435 | the rows of a chain lead to its records, however much has been appended behind them |
| EventStore.IndexReady | src/event-store.mjs:437-488 | after reading or rebuilding, the index has one row per record, and on a committed store its keys are the known ones |
| EventStore.GrowingIndexIsSound | src/event-store.mjs:490-499 | while rows are added behind a published head, a partly written index is not trusted for it |
| EventStore.FinalIndexIsSound | src/event-store.mjs:490-499 | the index bound after an append is trusted only if its keys are those of the chain, also after a rebuild inside the batch |
| EventStore.RepairDecision | src/event-store.mjs:664-696 | repair goes on exactly when the chain verifies, or truncation is asked for and the chain links up to a repeated key |
| EventStore.RepairRefused | src/event-store.mjs:664-696 | a repair is refused for a broken link, or for a repeated key that it was not asked to cut off |
| EventStore.LongestUnique | src/event-store.mjs:664-679 | there is one longest verified prefix |
| EventStore.RepeatEndsVerified | src/event-store.mjs:664-679 | the first repeated key ends the longest verified prefix |
| EventStore.EventStore.RebuildIdempotencyIndex | src/event-store.mjs:422-435 | succeeds exactly when the records list and parse; writes one row per record and binds them to the last id; on failure nothing changes |
| EventStore.EventStore.ReadIdempotencyIndex | src/event-store.mjs:437-488 | uses the file as it is exactly when it is trusted for the tip, and rebuilds it otherwise |
| EventStore.EventStore.AppendIndexRows | src/event-store.mjs:490-499 | each number of whole rows, and a torn row behind them, is a state on the way; in each of them the old rows are still in front |
| EventStore.EventStore.Lookup | src/event-store.mjs:605-629 | on a linked chain that carries the key at most once, a key of the index is answered as a scan would, also when the index leads to a wrong record and is rebuilt; it is rebuilt only then |
| EventStore.EventStore.CheckBatch | src/event-store.mjs:574-592 | empty batches, invalid inputs and repeated keys are refused, in this order, and nothing else is |
| EventStore.EventStore.WriteBatch | src/event-store.mjs:605-636 | from a verified chain the loop leaves the records and the replies of the cached reference; until the head is published every state keeps the cache sound |
| EventStore.EventStore.Publish | src/event-store.mjs:638-643 | the head moves once, after all records; from then on every state has the new records, the new head and a sound cache |
| EventStore.EventStore.AppendBrokerEvents | src/event-store.mjs:574-646 | refusals write nothing; from a committed store the result is the cached reference. With a sound cache every reply that is no replay is a record on disk with the key, body and payload of its input and the time of the call, every other reply is the old record of its key, and nothing else is added; the store is committed with a sound cache again, and an index in step with the chain is neither rebuilt nor left behind; every state on the way is one of the states of an append |
| EventStore.EventStore.ScanForRepair | src/event-store.mjs:660-679 | finds the longest verified prefix, and whether it ends at a broken link or at a repeated key |
| EventStore.EventStore.QuarantineFrom | src/event-store.mjs:692-695 | the files after the kept prefix move one at a time, oldest first |
| EventStore.EventStore.RepairEventHead | src/event-store.mjs:648-708 | succeeds exactly when it can; then the longest verified chain is kept, kept and quarantined records are the original ones, and the store is committed; when it refuses, the disk is as it was and the error says why: a parallel chain, a repeated key, or a broken chain |
| CrashRecovery.CrashKeepsVerified | src/event-store.mjs:574-646 | a crash anywhere in an append leaves the old records and a prefix of the new ones, verified |
| CrashRecovery.RepairAndRetry | src/event-store.mjs:574-708 | after a crash anywhere in an append, repair and the same batch with the same time leave the records and the head of the run that did not crash, and answer with its events |
| CrashRecovery.RetryWithoutRepair | src/event-store.mjs:506-509 | without a repair the retry runs if and only if the records are the old ones or the head is the new one; otherwise it reports a busy store |
| CrashRecovery.TipOfVerified | src/event-store.mjs:343-399 | on a verified chain the tip check is the check of the head |
| CrashRecovery.AnyScheduleCompletes | src/event-store.mjs:574-708 | after any number of crashes of appends and repairs, in any order, one repair and one append reach the chain of the run that never crashed |
| CrashRecovery.RepairAgain | src/event-store.mjs:682-696 | a truncating repair that crashed can be repeated if and only if none or all of its files had been moved; it then keeps and quarantines the same records |
| CrashRecovery.GapBreaksRepair | src/event-store.mjs:664-679 | a chain with records missing in the middle is refused by every repair |
| CrashRecovery.HalfMovedExample | src/event-store.mjs:692-695 | three records, the second repeating a key: repairable, and no longer so after the first rename |
| CrashRecovery.AppendOneByOne | src/event-store.mjs:562-568 | appending one event at a time leaves the chain and the replies of one batch |
| ConcurrentReader.NoReturn | src/event-store.mjs:284-308 | under appends a head that is read twice was there all the time, for one committed chain |
| ConcurrentReader.CommitsOnlyGrow | src/event-store.mjs:638-643 | under appends the committed part only grows |
| ConcurrentReader.ViewIsCommitted | src/event-store.mjs:284-308 | a listing whose head equals the head read before and after is what that head committed to throughout |
| ConcurrentReader.StoreReader.VerifyEventRecords | src/event-store.mjs:310-331 | accepts exactly the listings that verify, whatever is appended meanwhile, and returns their events; the error names what is wrong |
| ConcurrentReader.StoreReader.VerifyEventStore | src/event-store.mjs:284-308 | under any interleaving with appends, what it returns is the whole chain that one head committed to from its first to its last read; on a store at rest it accepts exactly the committed ones, and a head for zero records, and otherwise names what is wrong, or reports a busy store while the lock is held |
| ConcurrentReader.StoreReader.TryVerify | src/event-store.mjs:291-304 | one attempt: the whole committed chain, a refusal that names what is wrong, or another attempt while the lock is held |
| ConcurrentReader.StoreReader.VerifyEventTail | src/event-store.mjs:343-399 | under appends it returns the last events of the n that one head committed to from its first to its last read: as many as the requested number if that is a positive safe integer, or 512, or all n if there are fewer; on a store at rest it accepts exactly when the window validates behind a record that parses and the head matches, and then returns that window; for one record under the lock it answers as the tip check of the writers |
| ConcurrentReader.StoreReader.TryTail | src/event-store.mjs:353-394 | one attempt: a window of the committed chain, a refusal that names what is wrong, or another attempt while the lock is held |
| ConcurrentReader.TipCases | src/event-store.mjs:506-509 | the tip check of the writers, case by case: it accepts the head of the records exactly when the last record validates and the head names it |
| ConcurrentReader.AtRestMeaning | src/event-store.mjs:343-399 | what a tail read says of a store at rest: accepted, asked for again because of the lock, or refused for what is wrong |
| ConcurrentReader.AtRestAsTip | src/event-store.mjs:506-509 | for one record under the lock it says what the tip check of the writers says |
| ConcurrentReader.StoreReader.ReadTail | src/event-store.mjs:363-388 | accepts exactly the windows that validate; what it returns are the last events of the listing, as many as requested |
| ConcurrentReader.VerifiedTail | src/event-store.mjs:363-388 | on a verified chain every window validates and holds the last events |
| ConcurrentReader.AppendersRun | src/event-store.mjs:574-646 | from an empty root, after any batches at any times, refused ones included: the whole chain verifies with its head published, every state on the way is one the readers expect, and on the chain is what was accepted |
| ConcurrentReader.AcceptedOnce | src/event-store.mjs:574-646 | after such a run the keys of the accepted batches are on the chain, each once, and no others |
| ConcurrentReader.AcceptedTogether | src/event-store.mjs:574-646 | at one time, accepted batches are appended as if they were one |
| LifecycleOutbox.BackedMeansExactlyOnce | src/lifecycle-events.mts:168-205 | where every receipt is backed, a key of an entry is on the chain at most once, and exactly once as soon as the receipt exists |
| LifecycleOutbox.OccursOnce | src/event-store.mjs:310-331 | a key of a verified chain occurs once |
| LifecycleOutbox.RepliesName | src/lifecycle-events.mts:173-193 | the ids an append answers with are those of the events on the chain |
| LifecycleOutbox.NamesStay | src/lifecycle-events.mts:196-202 | what a receipt names stays named as the chain grows |
| LifecycleOutbox.GrowthIsBacked | src/lifecycle-events.mts:173-194 | every state of an append keeps the receipts backed |
| LifecycleOutbox.ProofMeaning | src/lifecycle-events.mts:124-138 | the guard sees a proof exactly when some receipt cannot be read, names a head, or names an event |
| LifecycleOutbox.DeliveredProves | src/lifecycle-events.mts:124-138 | wherever receipts are backed, the receipt of an entry with any attestation or event is such a proof |
| LifecycleOutbox.UndeliveredMeaning | src/lifecycle-events.mts:161-211 | a delivery counts the entries that had no receipt, and their events |
| LifecycleOutbox.UndeliveredSubjects | src/lifecycle-events.mts:161-211 | and gathers their subjects, and no others |
| LifecycleOutbox.Lifecycle.DeliverEntry | src/lifecycle-events.mts:170-194 | when it succeeds all keys of the entry are on the chain and the ids are those of their events, in order; wherever it stops, every receipt is backed |
| LifecycleOutbox.Lifecycle.Deliver | src/lifecycle-events.mts:140-211 | in every state each receipt is backed: the keys of its entry are on the chain, and it names the events that carry them. When some receipt cannot be read, names a head or names an event, and no genesis is allowed, a store without records is refused before any write; from a backed, committed store and acceptable entries it completes in all other cases. Then every entry that had no receipt has one, with an id per attestation and event and the last of them as the head; counts and subjects are those of these entries |
| LifecycleOutbox.Lifecycle.DeliverTwice | src/lifecycle-events.mts:140-160 | once an entry with any attestation or event has been delivered, a delivery to a store without records is refused and writes nothing |
| LifecycleOutbox.Lifecycle.GenesisGuard | src/lifecycle-events.mts:153-160 | refuses every store without records, and no committed store that has some; without the lock a head that does not match is missing or wrong, not busy |
| LifecycleOutbox.Lifecycle.RunSchedule | src/lifecycle-events.mts:140-211 | any schedule of deliveries, repairs, appends by others and new entries, each stopped after any write, with the clock read anew for every append, keeps every receipt backed; each action starts where the one before stopped |
| LifecycleOutbox.Lifecycle.Arrive | src/lifecycle-events.mts:165-169 | a new entry takes its place in the listing and leaves every receipt backed |
| EmergencyLedger.HashDeterminesPast | src/emergency.mts:63-80 | records of two chained ledgers with one hash have the same past |
| EmergencyLedger.CheckpointCommits | src/emergency.mts:81-89 | under one checkpoint (h, n) any two ledgers that verify share their first n records, and have at most one more |
| EmergencyLedger.ExtendChained | src/emergency.mts:70-78 | an appended record keeps the chain exactly when it fits the grants opened before it |
| EmergencyLedger.OpenGrantsMeaning | src/emergency.mts:152-159 | the fold keeps at most one grant per provider: the last one opened for it, unless that one was closed |
| EmergencyLedger.SetGrantMeaning | src/emergency.mts:155-155 | opening replaces the grant of the provider, in its place, and no other |
| EmergencyLedger.DropGrantMeaning | src/emergency.mts:156-156 | closing removes the grant with that id and no other |
| EmergencyGrants.ClosedAtMostOnce | src/emergency.mts:214-227 | in a safe run each grant is closed at most once |
| EmergencyGrants.UsedWhileOpen | src/emergency.mts:228-246 | in a safe run every use lies after its grant was opened, and before it was closed or superseded |
| EmergencyGrants.SupersessionExtends | src/emergency.mts:196-206 | in a safe run a superseding grant is for the same provider and expires strictly later |
| EmergencyGrants.ReplacedOrClosed | src/emergency.mts:196-213 | in a safe run, of two grants of a provider in a row without supersession, the first was closed before the second was opened |
| EmergencyGrants.OpenedAtMostOnce | src/emergency.mts:71-76 | in a ledger that verifies an id is opened once |
| EmergencyGrants.LifetimeBounded | src/emergency.mts:183-192 | in a ledger that verifies no grant lives longer than 7 days and 1 hour |
| EmergencyGrants.WrittenIsAccepted | src/emergency.mts:135-148 | after an append the ledger verifies exactly when the record fits the grants before it |
| EmergencyGrants.CrashLeavesOldNewOrNothing | src/emergency.mts:135-148 | a stop anywhere in an append leaves a ledger that verifies to the old records, to the new ones, or not at all |
| EmergencyGrants.LagIsOneRecord | src/emergency.mts:81-89 | a stop right after the line is written is recovered if and only if the ledger was new, or the checkpoint named its last record |
| EmergencyGrants.SecondStopExample | src/emergency.mts:81-89 | one such stop leaves a ledger that verifies, and a second one does not |
| EmergencyGrants.ReusedIdExample | src/emergency.mts:193-213 | a grant opened, closed and opened again under its id: the ledger verifies before, and not after |
| EmergencyGrants.ExtendSafe | src/emergency.mts:135-148 | a record that fits and that the operations allow keeps the run safe |
| EmergencyGrants.CrashStateIsSafe | src/emergency.mts:135-148 | whatever a stop leaves of a safe append is safe, if it verifies at all |
| EmergencyGrants.EmergencyStore.VerifyEmergency | src/emergency.mts:50-90 | accepts exactly the chained ledgers whose checkpoint names the last record or the one before, and returns their records |
| EmergencyGrants.EmergencyStore.AppendUnlocked | src/emergency.mts:135-148 | succeeds exactly for a well-formed record on a ledger that verifies; adds it; a refusal writes nothing; every state on the way is a state of an append |
| EmergencyGrants.EmergencyStore.FoldOpenGrants | src/emergency.mts:152-159 | the loop computes the fold |
| EmergencyGrants.EmergencyStore.CloseExpired | src/emergency.mts:166-172 | adds one closing for each expired open grant and nothing else; exactly the others stay open |
| EmergencyGrants.EmergencyStore.EvaluateEmergency | src/emergency.mts:160-182 | on a safe ledger the answer is the one open grant of the provider that has not expired, if there is one; expired ones are closed unless it must not write |
| EmergencyGrants.EmergencyStore.OpenEmergency | src/emergency.mts:193-213 | on a safe ledger: the request is accepted exactly when it ends after now, at most 7 days and 1 hour from now and after the grant the provider holds, its fields are in order, and, to be written, its id has 1 to 200 characters; the expired grants are closed and the new one takes the place of the grant in force, which it names; the ledger verifies, and is safe, if and only if the grant id is new |
| EmergencyGrants.EmergencyStore.CloseEmergency | src/emergency.mts:214-227 | on a safe ledger: closes the provider's open grant and no other, expired or not; writes nothing when there is none |
| EmergencyGrants.EmergencyStore.EmergencyUse | src/emergency.mts:228-246 | on a safe ledger: records the use exactly when the grant is open and has not expired, and changes no grant |
| EmergencyGrants.FoundIsInForce | src/emergency.mts:180-180 | the search finds the provider's open grant that has not expired |
| EmergencyRuns.RunRequests | src/emergency.mts:160-246 | over every run of requests with fresh ids, each stopped after any of its writes or not at all, a ledger that verifies at any moment, whether or not a later stop undid it, holds a safe run; each request starts where the one before stopped; without stops the ledger verifies at the end |
| ClaimWithdrawal.StaleAndFreshAgree | src/claims-withdraw.mts:220-237 | after the state write, a stale and a fresh registry entry show the same claims; they are the old ones without the withdrawn keys if and only if nothing remains or something that remains has a canonical reference |
| ClaimWithdrawal.PublishedKeepsRest | src/reconciliation.mjs:482-487 | where every claim has a canonical reference, as publishing demands, the rest is kept |
| ClaimWithdrawal.LastReferenceExample | src/claims-withdraw.mts:220-228 | two claims, of which only the withdrawn one has a reference: the other one is no longer shown |
| ClaimWithdrawal.StaysIssued | src/claims-withdraw.mts:220-237 | what an earlier registry entry listed is, after one more withdrawal, still what the scope holds plus what was withdrawn |
| ClaimWithdrawal.IssuedReads | src/context-query.mjs:298-309 | through a registry entry of any age a reader sees what it listed without all that has been withdrawn since, or nothing when the scope is gone |
| ClaimWithdrawal.WithdrawAll | src/claims-withdraw.mts:200-320 | after any number of withdrawals, refused ones included, this holds for every registry entry that there was |
| ClaimWithdrawal.ShowsIndex | src/context-query.mjs:275-309 | in a consistent state a scope shows exactly its index, and cannot be read when no claim of it has a canonical reference |
| ClaimWithdrawal.AllowedAfter | src/context-query.mjs:300-304 | after the state write the ids a scope may show are those of the entries that remain |
| ClaimWithdrawal.WithdrawnIsConsistent | src/claims-withdraw.mts:220-237 | a withdrawal keeps the store consistent: snapshots list exactly the indexes, and no current key is withdrawn |
| ClaimWithdrawal.KeepSorted | src/claims-withdraw.mts:221-221 | filtering ids before or after sorting is the same |
| ClaimWithdrawal.ClaimStore.VersionChain | src/claims-withdraw.mts:57-69 | follows the versions from the claim, none twice, until one is not stored, is the first, or was seen |
| ClaimWithdrawal.AllVersions | src/claims-withdraw.mts:57-69 | such a chain holds every version that can be reached from the claim |
| ClaimWithdrawal.ClaimStore.Analyse | src/claims-withdraw.mts:106-167 | fails exactly for no ids or an id that no scope lists and nobody is to publish; the key pairs removed are those of the entries whose claim is asked for, stored, and listed by no earlier scope; deletes the versions of these claims and the owned files with their keys, except what a scope still lists; reports the files with their keys that nobody owns |
| ClaimWithdrawal.ShownKeepFiles | src/claims-withdraw.mts:131-166 | whatever is deleted, no claim that a scope shows afterwards loses its file |
| ClaimWithdrawal.ClaimStore.WriteSnapshots | src/claims-withdraw.mts:220-237 | writes the new snapshots before the state; until then every reader sees what it saw |
| ClaimWithdrawal.ClaimStore.WithdrawClaims | src/claims-withdraw.mts:200-320 | an entry leaves its scope if and only if its claim is asked for, stored, and listed by no earlier scope. There is one write before which all readers see what they saw, and from which on they see, through old and new registry entries, exactly the claims that stay, each once and in order, provided one of them has a canonical reference, and else none. A scope that loses claims is succeeded by the next version of its snapshot with the entries that stay; files, publications and refusals are determined claim by claim; the shown claims keep their files |
| ClaimWithdrawal.WithdrawnIsGone | src/context-query.mjs:275-309 | no registry entry, old or new, leads to a withdrawn claim that one scope listed |
| ClaimWithdrawal.RemovedById | src/claims-withdraw.mts:108-133 | the key pairs that are removed are those of the entries whose claims leave |
| ClaimWithdrawal.DeletesById | src/claims-withdraw.mts:131-166 | which files go and which are kept in doubt, in terms of the claims that leave their scopes |
| ClaimWithdrawal.ScopesFollowOn | src/claims-withdraw.mts:220-237 | a scope that loses nothing stays as it is; one that loses claims is succeeded by the entries that stay, or leaves when none of them has a canonical reference |
| ClaimWithdrawal.OneSnapshotPerEntry | src/context-query.mjs:282-297 | whatever replaces a snapshot file, all that can be read through one registry entry is the one snapshot it names |
| ClaimWithdrawal.ReadExactly | src/context-query.mjs:298-309 | what is read are the claims of the snapshot that the index of the scope lists now under a key without a tombstone |
| LineScanner.ScanCompleteLines | src/codex-inventory.mjs:188-267 | the report is a function of the bytes alone, however they are cut into chunks |
| LineScanner.Resume | src/codex-inventory.mjs:549-578 | scanning on from the last newline of an earlier length sees the remaining lines and no line twice |
| LineScanner.LinesAreWhole | src/codex-inventory.mjs:219-223 | the lines counted end in their only newline, and nothing after the last newline is counted |
| LineScanner.CountIsRight | src/codex-inventory.mjs:183-186 | the number reported for a kind is the number of its lines if and only if the kind does not occur or names no inherited property; malformed lines are counted exactly |
| LineScanner.InheritedKindExample | src/codex-inventory.mjs:183-186 | one line of kind `toString`, and no number reported for it |
| LineScanner.LifecycleOfBoth | src/codex-inventory.mjs:580-580 | the last lifecycle event of two runs of lines is that of the second, or else of the first |
| LineScanner.RowOfText | src/codex-inventory.mjs:233-238 | a line is parsed without its newline and without a carriage return before it |
| LineScanner.LinesMeaning | src/codex-inventory.mjs:223-251 | the lines of a text end in their only newline, are the text in order, and leave out only what follows the last newline |
| LineScanner.FirstTime | src/codex-inventory.mjs:243-246 | the first time reported is that of the first line that has one |
| LineScanner.LastTime | src/codex-inventory.mjs:243-246 | the last time reported is that of the last line that has one |
| LineScanner.LastLifecycle | src/codex-inventory.mjs:247-249 | the lifecycle event reported is that of the last line that has one |
| LineScanner.NothingReported | src/codex-inventory.mjs:197-199 | where no line has a time or a lifecycle event, none is reported |
| LineScanner.TailEndsAtBoundary | src/codex-inventory.mjs:216-225 | a scan that may start within a line leaves off at a line boundary if and only if its window holds a newline or began right after one |
| LineScanner.NoNewlineExample | src/codex-inventory.mjs:216-225 | a window without a newline: the scan leaves off within the line |
| LineInventory.TotalsAddUp | src/codex-inventory.mjs:269-281 | the sums over the segments of a chain are those of one scan of all their bytes |
| LineInventory.CaughtUpScannedOnce | src/codex-inventory.mjs:549-578 | where an entry has caught up, the committed segments add up to one scan of the file from where its coverage starts: kinds, malformed lines and bytes |
| LineInventory.CaughtUpExactly | src/codex-inventory.mjs:530-579 | after a run the entry of a readable file covers all its complete lines if and only if the file was new, or is shorter than what was scanned, or has another first line, or what was scanned of it is still there |
| LineInventory.RewrittenUnnoticed | src/codex-inventory.mjs:530-541 | a file rewritten behind the same first line with as many bytes: nothing is scanned, and the entry does not cover it |
| LineInventory.NextEntryOk | src/codex-inventory.mjs:543-660 | a run continues the chain of a file, keeping where its coverage starts, or starts a new generation at a reset; coverage starts at 0 when the first scan saw at most maxScanBytes |
| LineInventory.CoversExactly | src/codex-inventory.mjs:549-578 | complete lines followed by those of the rest of a text are all of its complete lines exactly when the text starts with them |
| LineInventory.StillRemembers | src/codex-inventory.mjs:580-580 | the entry remembers the last lifecycle event it covers; only when it covers none can one from before a reset show |
| LineInventory.LastDecides | src/codex-inventory.mjs:526-678 | of several files with one id the last decides its entry |
| LineInventory.OthersKept | src/codex-inventory.mjs:526-678 | a file that was not looked at keeps its entry |
| LineInventory.RunSettles | src/codex-inventory.mjs:526-678 | the same exact condition for every file of a run that is the last with its id |
| LineInventory.Inventory.ReadStream | src/codex-inventory.mjs:206-212 | the chunks of the stream are the bytes of the file |
| LineInventory.Inventory.Observe | src/codex-inventory.mjs:526-675 | one turn of the loop leaves the next entry of the file, and reports of its segment what one scan of it says |
| LineInventory.Inventory.RunInventory | src/codex-inventory.mjs:515-699 | evidence before checkpoint: wherever the run stops, every segment behind the checkpoint has its report and its delta in the ledger, with exact counts; deltas continue the sequence; for every file it is said exactly when its entry covers it |
| LineInventory.Watch | src/codex-inventory.mjs:515-699 | a file of any length that only grows, observed at any sizes by runs that may stop early: after a run that completes, the reports behind the checkpoint count every complete line, from where coverage starts, exactly once; it starts at 0 when the first run to complete saw at most maxScanBytes |
| ReceiptScanner.AcceptsExactly | src/notice-receipts.mjs:41-54 | for every text of a JSON value the scan accepts if and only if no object at any depth repeats a decoded name or uses a forbidden one, and nesting is at most 16 |
| ReceiptScanner.AcceptsReceipt | src/notice-receipts.mjs:41-54 | the loop with its stack of name sets computes the scan, and so decides that question for its text |
| ReceiptScanner.LiteralLength | src/notice-receipts.mjs:43-43 | the string token ends at the quote that ends the literal, whatever escapes it holds |
| ReceiptScanner.EscapedRoundTrip | src/notice-receipts.mjs:49-49 | every name can be spelled with escapes alone, in either case, and is read back as it was |
| ReceiptScanner.DecodeOfBoth | src/notice-receipts.mjs:49-49 | a literal stands for what its parts stand for, one after the other |
| ReceiptScanner.CharacterStandsFor | src/notice-receipts.mjs:49-49 | a plain character stands for its UTF-16 code units |
| ReceiptScanner.ShortEscapes | src/notice-receipts.mjs:49-49 | the eight short escapes stand for the characters they name |
| ReceiptScanner.ScanValue | src/notice-receipts.mjs:41-54 | a value inside a text is judged on its own terms and leaves the stack as it was |
| ReceiptScanner.ScanMembers | src/notice-receipts.mjs:48-53 | the members of an object are accepted exactly when their names are new, distinct and allowed and their values are accepted |
| ReceiptScanner.ColonAfterSpace | src/notice-receipts.mjs:48-48 | white space between a name and its colon does not matter |
| WindowsQuoting.Quote | distillation/src/windows-launcher.cs:92-101 | the loop writes the quoted form |
| WindowsQuoting.QuoteRoundTrip | distillation/src/windows-launcher.cs:92-101 | a quoted argument, followed by a space or the end, is read back as it was |
| WindowsQuoting.TailRoundTrip | distillation/src/windows-launcher.cs:250-251 | any list of arguments is read back as it was, neither split nor merged |
| WindowsQuoting.CommandLine | distillation/src/windows-launcher.cs:250-252 | fails exactly for an argument with a NUL, or else for a line of 32767 units or more; what it returns is parsed back to the arguments |
| WindowsQuoting.CommandRoundTrip | distillation/src/windows-launcher.cs:250-251 | the whole command line is parsed back to the arguments, and to the program name with its trailing backslashes doubled |
| WindowsQuoting.ProgramRoundTrip | distillation/src/windows-launcher.cs:250-250 | a quoted program name is read back if and only if it holds no double quote mark and does not end in a backslash |
| WindowsQuoting.BackslashExample | distillation/src/windows-launcher.cs:250-250 | a program name that ends in a backslash is read back with two |
| NoticeBudget.ListNotices | src/context-notices.mjs:194-206 | each envelope is kept whole exactly when the lane with it stays within the budget; included and omitted add up; the byte count is that of header and envelopes joined |
| NoticeBudget.ThinNotices | src/context-query.mjs:525-544 | the second pass keeps exactly what fits, conserves included plus omitted, and counts the bytes that are left |
| NoticeBudget.BoundedLines | src/context-query.mjs:490-500 | the longest prefix of the lines within the budget |
| NoticeBudget.RenderContext | src/context-query.mjs:525-553 | a notice is listed exactly when its opening, text and closing fit the lane budget behind those listed before it, and stays exactly when they also fit what the lines leave of the context, behind those that stay before it; what stays stands whole and in order behind the lines, and the context is cut where its budget ends; the byte count of the lane is exact and within its budget |
| NoticeBudget.BothPasses | src/context-query.mjs:525-544 | the two passes select exactly these notices |
| NoticeBudget.JoinedMore | src/context-notices.mjs:194-206 | joined parts are separated by one newline each |
| NoticeBudget.LastKeptFits | src/context-notices.mjs:194-206 | all that a pass keeps fits together |
| NoticeBudget.SealingKeepsSize | src/context-query.mjs:545-546 | replacing the pending nonce changes no size |
| DecisionTrace.BuildTrace | src/context-query.mjs:822-864 | every claim that a selected snapshot lists is accounted for once, by weight; an entry says included exactly for a returned claim, and otherwise says why not |
| DecisionTrace.EligibleExactly | src/context-query.mjs:429-462 | a claim is eligible exactly when it is fresh, of an allowed type, in a related scope, recorded by the asking provider or shared across providers, and matches a term where terms filter |
| DecisionTrace.ReasonExactly | src/context-query.mjs:429-462 | the reason given for a claim that is not eligible is the first rule that it fails |
| DecisionTrace.BetterExactly | src/context-query.mjs:441-462 | of two eligible claims the one with more points is better: eight for a query term, two for a profile term, two for the exact scope, one for another provider; then the one accepted later, then the lesser key |
| DecisionTrace.SelectClaims | src/context-query.mjs:834-848 | the claims returned are eligible, in order, at most the cap, and no eligible claim left out is better than one returned |
| DecisionTrace.Decide | src/context-query.mjs:849-861 | one decision per candidate, in order, that explains it |
| DecisionTrace.ReadSnapshots | src/context-query.mjs:822-833 | withdrawn claims, claims beyond the read limit and candidates are together all claims listed |
| DecisionTrace.SnapshotAccounted | src/context-query.mjs:397-408 | the same for one snapshot |
| DecisionTrace.CandidatesAreFirstShown | src/context-query.mjs:400-404 | the candidates of a snapshot are its first claims that are not withdrawn, in order, four times as many as the query may return but at most 100 |
| DecisionTrace.NotesMeaning | src/context-query.mjs:385-405 | each withdrawn claim is noted by its id, and those beyond the read limit by their number |
| DecisionTrace.Summarize | src/context-trace.mts:64-78 | a layer sums its entries: included, excluded by weight, and by reason |
| DecisionTrace.TraceCounts | src/context-trace.mts:127-136 | the counts sum candidates and peer progress |
| DecisionTrace.LayersPartition | src/context-trace.mts:79-85 | every entry is in exactly one of the four accepted layers |
| DecisionTrace.LayerHolds | src/context-trace.mts:79-85 | a layer holds the entries whose snapshot has its role, and the last one those of all other roles |
| DecisionTrace.RoleForMeaning | src/context-trace.mts:79-79 | the role of a snapshot is that of its last entry, and `related` if it has none |
| DecisionTrace.Layers | src/context-trace.mts:63-93 | the accepted layers and the peer layer add up, reason by reason, to the counts |
| DecisionTrace.TraceQuery | src/context-trace.mts:63-93 | for a query the accepted layers include as much as it returns, and exclude all the rest of what the selected snapshots list |
| ClaimsExport.Collect | src/claims-export.mts:151-169 | selects exactly the claims that some readable snapshot offers, each once |
| ClaimsExport.SortedCurrentMeaning | src/claims-export.mts:170-172 | the unpaged list holds each selected claim that no selected claim supersedes, once, in order |
| ClaimsExport.AfterCursorMeaning | src/claims-export.mts:173-176 | the claims after a cursor are those that come after it in the order, in order |
| ClaimsExport.InitialIsPrefix | src/claims-export.mts:172-178 | claims of an ordered list such that all others come after them are its first ones |
| ClaimsExport.ExportClaims | src/claims-export.mts:172-190 | a page holds current claims after the cursor, earliest first; it is as long as was asked for, from 1 to 500, or holds all that are left; of those it leaves out all come after its last one; a next cursor is there exactly when some are left out; a malformed cursor is refused |
| ClaimsExport.PageIsSlice | src/claims-export.mts:172-190 | a page is the part of the unpaged list that comes next |
| ClaimsExport.FollowCursor | src/claims-export.mts:172-190 | with any limits, following the cursor ends, and the pages are together the unpaged list |
| ClaimsExport.ExportAll | src/claims-export.mts:151-190 | over all pages every current claim is given once, earliest first, and none that another selected claim supersedes |

## Left out

- SHA-256, JSON text and base64url: digests are values, and a file is what its text parses to. `head.json` is identified with
  its JSON value.
- The formats of event fields, and the order that `buildEvent` gives to references and payload: one flag says whether the
  checks pass, and the fields the store never reads are one string. The 12 digits of a sequence in a file name are not
  bounded.
- Lock files, process ids and the reclaiming of stale locks: a writer holds the lock alone. Mutual exclusion across a reclaim
  is not claimed.
- Readers during a repair: a repair removes and may rewind the head. The reader results are about appenders.
- Reconciliation, which publishes claims and creates the snapshots, and `synchronizeRegistry` beyond writing one entry per
  scope.
- The mapping of lifecycle runs to outbox entries (`lifecycleOutboxEntry`): entries are given as the events they become.
  The attested subjects that a delivery returns are a set, not a sorted list.
- LifecycleOutbox.Lifecycle.Arrive: the name of an outbox file identifies its run. An entry that comes with the name of a
  pending or delivered one is taken to be that one.
- ClaimWithdrawal.ClaimStore.Analyse: review copies and audit artifacts that render a withdrawn value are not modelled. Which
  scopes have listed a claim, which the program reads from old snapshots, is given.
- ClaimWithdrawal.ClaimStore.WithdrawClaims: the manifest, the outbox events and the replay of a withdrawal that has already
  completed are not modelled. A snapshot's references are present or absent; their form is not checked.
- ClaimWithdrawal.ClaimStore.WriteSnapshots: the scopes are visited in the order of the state, not of the targets. Only the
  order in which new snapshot files appear differs.
- In the emergency ledger: a missing runtime home, and a checkpoint file that holds the text `null`, which the program reads like
  a missing one.
- Emergency reports, and the contents of `used` records: one flag says whether they pass the schema.
- Two crashes in a row in the emergency ledger, and an empty ledger file: both fail closed, which is stated by
  `EmergencyGrants.LagIsOneRecord` and not repaired by the program.
- LineInventory.Watch: the first line of the file is there from the first run on, so that its hash does not change.
- Thread states, relation keys and expiry in the inventory, and the reading of related deltas.
- The UTF-8 decoding, size and file checks in front of the receipt scanner, and the schema behind it.
- NoticeBudget.ListNotices: starts from the notices that reach the budget; the filters before it (audience, status, approval)
  are not modelled. The sealed nonce is assumed to be as long as the pending one.
- DecisionTrace.BuildTrace: starts from the selected snapshots; the ranking of snapshots, near misses and suggested scopes are
  not modelled. Whether a claim matches a term is given.
- Collation: the texts that order exported claims are represented by their places in the order.
- Jobs, pipes and handles of the Windows launcher, the environment block, Git, the command line, installers, corpus scripts
  and the site.
