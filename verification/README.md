# Hot potato: a verified model of the message bus

The bus moves letters between agents. A letter is queued in its receiver's mailbox, pushed to the
receiver's endpoint or polled by it, read and filed; or it is given up and may be revived. This
project models that bus in Dafny and proves what its rules promise over every input and every run.

- **The life of a letter.** `Lifecycle` holds the transition table and the reference meaning of an
  event. `MemoryStore` and `SledStore` are the two backends as classes that are changed in place,
  with their loops; `Mailbox`, `SledTree` and `SledBoxes` are what their contracts speak of.
- **One bus.** `Likeness`, `Simulation` and `Agreement` relate the backends: each operation keeps
  them one bus exactly when it is harmless, and over runs of harmless operations all answers are
  equal. `Backends` states this from the empty bus on, and shows that harmless means neither more
  nor less than what no caller can tell apart.
- **Runs.** `Lives` is about the life of one letter in either backend. `Histories` and `Ledger`
  follow it through an in-memory store of any capacity, on which any number of callers interleave
  (each method holds the write lock, so it is one step), and prove the claim accounting, the table
  and the times; `SledLives` does so for the sled store, one operation after the other. `Drains`
  is about polling until nothing waits.
- **The push protocol.** `Lease` says exactly when two pushes of one letter can overlap.
  `Sweeper` and `Sweeps` are the retry window, the sweep over the in-memory store, and the poison
  policy. The outcome of a push is a parameter.
- **Threads, invites, pools.** `Threads` and `ThreadRuns` treat the two bounded reference walks;
  `Base64Url`, `InviteCodes` and `Invites` the invite codes; `Bus`, `Federation` and `Network` the
  sending rules and the routing between pools.

Times are nanoseconds, and the clock is a parameter of every step. Texts are sequences of
characters; their order is the byte order of UTF-8, which is the order of code points. New ids are
a parameter, assumed fresh where a statement says so.

Where the code differs from its own documentation, the model follows the code:

- The retry window is documented as an exponential backoff. Since it is computed from the age that
  it is then compared with, only its first step ever holds a letter back (`Sweeper.GateIsOneStep`).
- The in-memory store writes the reason of a give-up before it asks the table, so killing a dead
  letter again replaces its reason, and with it whether it can be revived; sled keeps the first
  reason (`Ledger.SecondKillDecidesRevival`). It orders letters by nanoseconds and then by id, sled
  by milliseconds and then by id (`Backends.OrderInsideMillisecond`). For the operations modelled
  here and colon-free names these are the only ways in which the backends come apart
  (`Backends.HarmlessExactly`), apart from the diagnostics that `Lifecycle.Core` leaves out and the
  order in which revived letters are returned, which are compared as a set.
- A claim is documented to guard against double delivery. It guards the push of whoever claims
  first. The register re-push (src/server.rs:340-362) and the inbound push (src/server.rs:714-764)
  claim only after they have pushed, and the push on arrival (src/server.rs:166-208) never claims,
  so each can push beside a dispatcher that holds the claim; and the failures that the last one
  reports can re-queue a letter that is being pushed. `Lease.LeaseIsExact` has all of them as
  conditions.
- A push on arrival that succeeds is documented to deliver the letter (src/server.rs:161-165). It
  reports without a claim, and no row leads from Queued to Delivered by a push: the letter stays
  queued and is pushed again, unless somebody else holds a claim at that moment
  (`Lease.ArrivalIsForgotten`, `Lease.UnclaimedReport`).
- A skipped push is documented as nothing attempted, but costs an attempt
  (`Sweeps.DiesInFirstLethalRound`).
- A bare acknowledgement is forwarded under a name that the receiving pool reads as a task
  (`Federation.TypeAcrossWire`).
- An invite code is cut at its last dash although the encoding may contain one
  (`InviteCodes.UrlCodes`; `InviteCodes.TildeUrlIsLost` is an example).
- A broadcast by someone without the manager role succeeds, with no copies, when nobody else is
  registered (`Bus.OnlyManagersBroadcast`).

`Lifecycle.Core` is what the backends agree on: a letter without `last_error`, and without
`dead_reason` unless it is dead.

## Model

| member | source | states |
|---|---|---|
| `Lifecycle.ApplyByScan` | src/state.rs:104-125 | the row-by-row scan of the table returns the same verdict as the case analysis `Apply`, for every state and event |
| `Lifecycle.TableVerdicts` | src/state.rs:78-125 | a letter moves exactly along the rows of the table; the only no-op is a second claim of a letter in flight |
| `Lifecycle.Clip` | src/store/memory.rs:416-462 | an acknowledgement note is cut to its first 80 characters and otherwise kept |
| `Lifecycle.BackendFollowsTable` | src/store/memory.rs:416-462 | each backend changes a letter as the table says, diagnostics aside, if and only if it is not the in-memory store overwriting the reason of a letter that is already dead |
| `Lifecycle.OpKeepsEnvelope` | src/message.rs:41-85 | no store operation, in either backend, touches id, parties, text, reference, creation time, hops or origin |
| `Lifecycle.ClaimDoes` | src/store/memory.rs:104-124 | field by field, in both backends: a claim of a queued letter puts it in flight with one attempt more and the time of the claim, and changes no other letter |
| `Lifecycle.AckDoes` | src/store/memory.rs:299-327 | field by field: filing a delivered or read letter sets status, filing time and the first 80 characters of the note, and the reading time only if there was none; other letters stay as they are |
| `Lifecycle.FailDoes` | src/store/memory.rs:144-181 | field by field: a failed push gives a letter up from the eighth attempt on unless its reason is a credential one, and queues it again otherwise; what each backend writes besides |
| `Lifecycle.ReviveDoes` | src/store/memory.rs:183-208 | field by field: a letter that died on its credentials is queued again with no attempts and no reasons, and no other letter changes |
| `Lifecycle.AuthReasons` | src/store/memory.rs:160-192 | a reason is a credential one if and only if "401", "403" or "Unauthorized" occurs in it somewhere |
| `Mailbox.FifoSorts` | src/store/mod.rs:117-119 | sorting keeps the letters (as a multiset) and leaves none before an older one |
| `Mailbox.FifoStrict` | src/store/mod.rs:117-119 | with distinct ids the order is total and strict, ties in time decided by id |
| `Mailbox.UpdateSorted` | src/store/mod.rs:117-119 | changing a letter by id and sorting commute |
| `Mailbox.DrainHandsOut` | src/store/memory.rs:63-83 | a drain hands out exactly the first `limit` queued letters in order (one when the limit is 0) and the other queued letters stay queued |
| `Mailbox.DrainChanges` | src/store/memory.rs:63-83 | position by position: a letter changes in a drain if and only if it is queued and among the first `limit` queued ones, and then by the `poll_claimed` row |
| `Mailbox.AckIsAnswered` | src/store/memory.rs:299-327 | filing answers with the filed letter if it was delivered or read, with the letter as it is if it was filed already, and refuses with the name of any other status |
| `Mailbox.ReadIsAnswered` | src/store/memory.rs:263-283 | reading answers with the read letter if and only if it was delivered, and refuses with the name of any other status |
| `Mailbox.OthersAreAnswered` | src/store/memory.rs:85-261 | every other operation answers with the letter as it is stored afterwards, an unknown id with an error, and an error changes nothing |
| `Mailbox.ClaimIsAnswered` | src/store/memory.rs:104-124 | a claim answers `true` if and only if the first letter of that id is queued, and an error if and only if there is none |
| `MemoryStore.DrainInOrder` | src/store/memory.rs:63-83 | the polling loop over a sorted mailbox computes the drain |
| `MemoryStore.ReviveInOrder` | src/store/memory.rs:183-208 | the revival loop changes every dead letter with a credential reason and no other, and collects exactly those |
| `MemoryStore.ReviveFollowsTable` | src/store/memory.rs:183-208 | the hand-written revival is the `revive_auth` row with attempts 0 and no reasons, in either backend |
| `MemoryStore.ApplyEvent` | src/store/memory.rs:416-462 | the shared funnel: early facts first, then the table, then the caller's change and the timestamp only on a legal move |
| `MemoryStore.InMemoryStore.Push` | src/store/memory.rs:50-61 | a full mailbox refuses, and otherwise the letter is appended for its receiver; nothing else changes |
| `MemoryStore.InMemoryStore.Poll` | src/store/memory.rs:63-83 | the mailbox is sorted and drained; the answer is what was handed out; other mailboxes are unchanged |
| `MemoryStore.InMemoryStore.MarkDelivered` | src/store/memory.rs:85-102 | the hand-written status write equals the `poll_claimed` event on the named letter |
| `MemoryStore.InMemoryStore.MarkPushing` | src/store/memory.rs:104-124 | the claim is won if and only if the letter is queued; a lost claim changes nothing; an unknown letter is an error |
| `MemoryStore.InMemoryStore.MarkPushOk` | src/store/memory.rs:126-142 | equals the `push_ok` event on the named letter |
| `MemoryStore.InMemoryStore.MarkPushFailed` | src/store/memory.rs:144-181 | equals give-up or rejection on the named letter, by attempts and reason |
| `MemoryStore.InMemoryStore.ReclaimStalePushing` | src/store/memory.rs:210-237 | equals the `push_rejected` event on the named letter |
| `MemoryStore.InMemoryStore.MarkDead` | src/store/memory.rs:239-261 | equals the `give_up` event, the reason written even when the move is refused |
| `MemoryStore.InMemoryStore.MarkRead` | src/store/memory.rs:263-283 | equals the `read_receipt` event, and refuses anything but a delivered letter |
| `MemoryStore.InMemoryStore.AckLetter` | src/store/memory.rs:299-327 | equals the `ack` event: filing twice is harmless, an undelivered letter is refused, the read receipt is filled in, the note clipped |
| `MemoryStore.InMemoryStore.ReviveAuthDead` | src/store/memory.rs:183-208 | re-queues and returns exactly the agent's dead letters with a credential reason |
| `MemoryStore.InMemoryStore.DeleteOne` | src/store/memory.rs:355-363 | removes and returns the one letter with the id, wherever the search meets it, or reports that there is none |
| `MemoryStore.InMemoryStore.DeleteAll` | src/store/memory.rs:365-373 | empties every mailbox and returns how many letters there were |
| `MemoryStore.InMemoryStore.ListAll` | src/store/memory.rs:375-380 | every stored letter, each once, in FIFO order |
| `MemoryStore.RetainKeepsOthers` | src/store/memory.rs:391-398 | removing one agent from the list removes it wholly and no other |
| `MemoryStore.InMemoryStore.Register` | src/store/memory.rs:382-389 | registration is idempotent, keeps the order of the agents and never discards a mailbox |
| `MemoryStore.InMemoryStore.Unregister` | src/store/memory.rs:391-398 | removes the agent from the list, keeps the others in order and every letter |
| `SledTree.KeyOrder` | src/store/sled_store.rs:29-36 | inside one receiver's prefix, byte order of keys is (milliseconds, id) order, if and only if: zero-padded decimals sort as numbers |
| `SledTree.ScanVisits` | src/store/sled_store.rs:104-124 | exactly which receivers a prefix scan visits: the agent itself, and names that continue it with a colon |
| `SledTree.ScanExact` | src/store/sled_store.rs:104-124 | between colon-free names a scan visits exactly the agent's own letters |
| `SledTree.ScanMeetsMarker` | src/store/sled_store.rs:397-405 | a scan meets registration markers only for the reserved name `__agent__` |
| `SledTree.InsertReplaces` | src/store/sled_store.rs:40-58 | writing under a key that is present changes that entry's value and nothing else |
| `SledBoxes.SearchExactly` | src/store/sled_store.rs:40-58 | the scan of a prefix ends at the first entry that is a marker or the letter sought, and reports a broken scan, the letter, or that there is neither |
| `SledBoxes.PollReadable` | src/store/sled_store.rs:104-124 | a poll fails on a marker if and only if the scan meets one before the limit is reached, or before any queued letter |
| `SledBoxes.UnremovableAre` | src/store/sled_store.rs:373-391 | a full clean-up leaves exactly the markers and what lies under the reserved prefix |
| `SledBoxes.UpdateInBox` | src/store/sled_store.rs:40-58 | scan-and-insert rewrites the same key: no update adds, drops or moves an entry, and exactly the named letter of exactly that mailbox changes |
| `SledBoxes.UpdateAnswer` | src/store/sled_store.rs:40-58 | the answer of an update is the lookup by id in the agent's mailbox |
| `SledBoxes.PushInBox` | src/store/sled_store.rs:89-102 | a letter under a new key joins its own mailbox at the place its key gives it, and no other mailbox |
| `SledBoxes.PollInBox` | src/store/sled_store.rs:104-124 | the polling scan over the whole tree is a drain of that agent's mailbox, and never meets a marker |
| `SledBoxes.RevivalInBox` | src/store/sled_store.rs:219-258 | collecting candidates and updating them one by one revives exactly the revivable letters of that mailbox |
| `SledStore.SledStore.UpdateOne` | src/store/sled_store.rs:40-58 | the loop finds the first letter with the id in the prefix and writes the edit back under its key |
| `SledStore.SledStore.Push` | src/store/sled_store.rs:89-102 | refuses when the prefix holds as many entries as the capacity, else inserts |
| `SledStore.SledStore.Poll` | src/store/sled_store.rs:104-124 | the loop performs the polling scan and keeps the tree ordered |
| `SledStore.SledStore.MarkDelivered` | src/store/sled_store.rs:126-136 | edits the letter by the `poll_claimed` event |
| `SledStore.SledStore.MarkPushing` | src/store/sled_store.rs:138-159 | edits by the `push_started` event; won if and only if the letter was queued |
| `SledStore.SledStore.MarkPushOk` | src/store/sled_store.rs:161-178 | edits by the `push_ok` event |
| `SledStore.SledStore.MarkPushFailed` | src/store/sled_store.rs:180-217 | edits by give-up or rejection, the error noted in either case |
| `SledStore.SledStore.ReclaimStalePushing` | src/store/sled_store.rs:260-284 | edits by the `push_rejected` event |
| `SledStore.SledStore.MarkDead` | src/store/sled_store.rs:286-307 | edits by the `give_up` event, the reason written only on a legal move |
| `SledStore.SledStore.MarkRead` | src/store/sled_store.rs:309-322 | edits by the `read_receipt` event or refuses |
| `SledStore.SledStore.AckLetter` | src/store/sled_store.rs:329-345 | edits by filing the result, with its two clock readings |
| `SledStore.AckFollowsTable` | src/store/sled_store.rs:329-345 | when both readings are the same, filing is the `ack` event |
| `SledStore.AckEditIsAnswered` | src/store/sled_store.rs:329-345 | filing in the tree, with two clock readings: the answer for each of the six statuses, written out |
| `SledStore.AckOpIsAnswered` | src/store/sled_store.rs:329-345 | filing in the tree succeeds if and only if the letter is delivered, read or filed, and refuses with the name of any other status |
| `SledStore.ReadOpIsAnswered` | src/store/sled_store.rs:309-322 | reading in the tree: the answer for each of the six statuses, written out |
| `SledStore.ClaimOpIsAnswered` | src/store/sled_store.rs:138-159 | a claim in the tree is won if and only if the letter is queued, and leaves any other as it is |
| `SledStore.SledStore.ReviveAuthDead` | src/store/sled_store.rs:219-258 | the loop over the candidates performs the revival |
| `SledStore.SledStore.Collect` | src/store/sled_store.rs:62-76 | the letters that satisfy the test, and no markers, in FIFO order |
| `SledStore.SledStore.DeleteOne` | src/store/sled_store.rs:355-371 | removes the first entry with the id, keeps the order of the rest |
| `SledStore.SledStore.DeleteAll` | src/store/sled_store.rs:373-391 | removes every letter, keeps the markers, and returns the number removed |
| `Simulation.TouchSimulates` | src/store/sled_store.rs:126-345 | one single-letter operation keeps the two backends one bus if and only if it does not overwrite the reason of a dead letter |
| `Simulation.PushSimulates` | src/store/sled_store.rs:89-102 | a push keeps them one bus if and only if the mailbox is full or no letter of the same millisecond that can still be handed out is ordered differently by nanoseconds than by id |
| `Likeness.WholeMillisNeverClash` | src/store/sled_store.rs:29-36 | letters with whole-millisecond creation times never clash |
| `Simulation.PollSimulates` | src/store/sled_store.rs:104-124 | polls hand out the same letters in the same order |
| `Simulation.ReviveSimulates` | src/store/sled_store.rs:219-258 | revivals re-queue and return the same letters |
| `Simulation.DeleteSimulates` | src/store/sled_store.rs:355-371 | deletions by id remove the same letter |
| `Simulation.CleanUpSimulates` | src/store/sled_store.rs:373-391 | full clean-ups leave the same empty bus |
| `Simulation.RegisterSimulates` | src/store/sled_store.rs:397-405 | registration markers are invisible to every mailbox |
| `Simulation.MarkersTell` | src/store/sled_store.rs:397-426 | registering marks exactly that agent in the tree, and unregistering unmarks exactly that agent |
| `Likeness.RevivableMembers` | src/store/memory.rs:183-208 | the letters a revival returns are exactly the dead ones with a credential reason |
| `Agreement.StepSimulates` | src/store/mod.rs:1-60 | any operation keeps the two backends one bus - the same letters, and the same order of those that can still be handed out - if and only if it is harmless |
| `Agreement.RepliesAgree` | src/store/mod.rs:1-60 | related backends give the same answer to every harmless operation: statuses, attempts, times, notes, batches, revived sets, counts, errors |
| `Agreement.FullIsRefused` | src/store/sled_store.rs:89-102 | both backends refuse a push if and only if the mailbox holds 1024 letters, with its name and that number |
| `Agreement.ClaimsTell` | src/store/sled_store.rs:138-159 | both backends answer a claim with whether the letter was queued |
| `Agreement.DeletionsTell` | src/store/sled_store.rs:355-371 | both backends answer a deletion with the letter of that id, or that there is none |
| `Agreement.RevivalsTell` | src/store/sled_store.rs:219-258 | both backends answer a revival with exactly the letters that died on their credentials, queued again with all their attempts, and a clean-up with the number of letters |
| `Agreement.RunsAgree` | src/store/mod.rs:1-60 | over every run of harmless operations all answers are the same and the backends stay one bus |
| `Backends.BackendsAgree` | src/store/mod.rs:1-60 | from the two empty stores: every run with colon-free names, an id of its own for every letter, whole-millisecond times and no kill or failed push of a dead letter is answered alike throughout |
| `Backends.HarmlessExactly` | src/store/mod.rs:1-60 | an operation is harmless if and only if no caller can tell the backends apart by its answer or by any polls and re-queuings afterwards |
| `Backends.OrderInsideMillisecond` | src/store/sled_store.rs:29-36 | two letters of one millisecond that the two stores hand out in opposite orders |
| `Agreement.TotalsAgree` | src/store/sled_store.rs:373-391 | a full clean-up removes the same number of letters from both |
| `Agreement.ListingsAgree` | src/store/sled_store.rs:393-395 | the two listings of all letters are the same sequence, diagnostics aside |
| `Histories.StoredStep` | src/store/memory.rs:50-373 | what any store step does to a stored letter: nothing, or exactly the event of an operation that names it, or a drain, a revival or a deletion |
| `Histories.AbsentStep` | src/store/memory.rs:50-61 | a letter appears only by being pushed, and then as it was pushed |
| `Lives.OpIsRow` | src/state.rs:78-125 | in either backend an operation leaves the status alone or moves it along the row of its event |
| `Lives.LateOutcomeChangesNothing` | src/store/memory.rs:126-181 | in either backend, a late push outcome, claim, poll, kill or revival leaves a delivered, read or acked letter as it is, but for the diagnostics `last_error` and `dead_reason` |
| `Lives.LifeDeliversOnce` | src/state.rs:78-125 | in either backend a letter enters Delivered at most once while it is stored |
| `Ledger.EveryMoveIsRow` | src/state.rs:78-125 | every status change made by any step of the in-memory store, hand-written ones included, is a row of the table |
| `SledLives.SledEveryMoveIsRow` | src/store/sled_store.rs:89-426 | every status change made by any step of the sled store, for names of any shape, is a row of the table |
| `SledLives.SledAckIsRow` | src/store/sled_store.rs:329-345 | filing a result with two readings of the clock is a row of the table or changes no status |
| `SledLives.SledLived` | src/store/sled_store.rs:89-426 | over every run of the sled store, each letter, known by its key, lives by the table: step by step it is left alone, changed by the event asked for, pushed new, or gone |
| `SledLives.SledDeliversOnce` | src/store/sled_store.rs:104-178 | over every run of the sled store a letter enters Delivered at most once while it is stored |
| `SledLives.SledAckedIsFinal` | src/store/sled_store.rs:329-345 | over every run of the sled store a filed letter keeps its status, note and times while it is stored |
| `SledLives.SledDeadStaysDead` | src/store/sled_store.rs:219-258 | over every run of the sled store without a revival a dead letter stays dead |
| `SledLives.SledTimestampChain` | src/store/sled_store.rs:104-345 | on every state a run of the sled store reaches under a clock that does not go back, the times form the chain of the status |
| `SledLives.SledStampsArePermanent` | src/store/sled_store.rs:104-345 | in the sled store a time once set is never rewritten while the letter is stored |
| `Ledger.ClaimsBalance` | src/store/memory.rs:104-261 | over every interleaving: claims won = departures from Pushing + 1 if in flight; `attempts` = claims won since the last revival; arrivals in Delivered = 1 if settled, else 0 |
| `Ledger.ClaimsNeverOverlap` | src/store/memory.rs:104-124 | from the empty store: claims out at any time number one or none, one exactly when the letter is in flight; a letter is delivered at most once |
| `Ledger.DeadAnswersToRevivalOnly` | src/store/memory.rs:183-208 | an operation takes a letter out of Dead if and only if it is a revival and the reason is a credential one |
| `Ledger.WhenPushFailureKills` | src/store/memory.rs:144-181 | a failed push leaves a letter dead if and only if 8 attempts are used, the reason is no credential one, and it was queued or in flight |
| `Ledger.SecondKillDecidesRevival` | src/store/memory.rs:416-462 | after a second kill, the in-memory store revives by the new reason and sled by the old one |
| `Ledger.AckedIsFinal` | src/state.rs:78-125 | over every run a filed letter keeps its status, note and times while it is stored |
| `Ledger.DeadStaysDead` | src/state.rs:78-125 | over every run without a revival for its receiver a dead letter stays dead |
| `Ledger.TimestampChain` | src/store/memory.rs:63-327 | on every reachable state under a clock that does not go back: each time is set if and only if the status says so, created <= delivered <= read <= acked, notes have at most 80 characters |
| `Ledger.StampsArePermanent` | src/store/memory.rs:63-327 | a time once set is never rewritten while the letter is stored |
| `Drains.WaitingIsQueued` | src/store/memory.rs:63-83 | what waits for an agent is exactly its queued letters in strict FIFO order |
| `Drains.BatchIsSlice` | src/store/memory.rs:63-83 | the j-th of successive polls hands out the j-th slice of the waiting letters |
| `Drains.PollingDrains` | src/store/memory.rs:63-83 | successive polls: the first ceil(q/k) batches are the non-empty ones, joined they are the waiting letters each once in FIFO order, and none waits afterwards |
| `Drains.PollsTouchNothingElse` | src/store/memory.rs:63-83 | polls leave other mailboxes and letters that do not wait as they are |
| `Drains.ZeroMeansAll` | src/bus.rs:134-138 | limit 0 through the bus hands out everything in one batch; the store itself would hand out one letter |
| `Drains.OtherLimitsHold` | src/bus.rs:134-138 | any other limit hands out that many of the waiting letters, the first ones, or all of them if fewer wait |
| `Dispatch.StaleIs` | src/sweeper.rs:74-91 | a claim is stale exactly from 151 seconds on, because whole seconds are compared |
| `Dispatch.StaleAfter` | src/sweeper.rs:74-91 | a letter is stale if and only if it is in flight and 151 seconds have passed since its last claim, or since its creation if it was never claimed |
| `Lease.StoreActs` | src/store/memory.rs:104-124 | the steps of the push protocol are those of the store, and a claim is won if and only if the letter is queued |
| `Lease.ReclaimTakesOnlyOrphans` | src/sweeper.rs:74-91 | in a sound configuration, whenever a sweeper is about to reclaim, no live dispatcher holds a claim |
| `Lease.LeaseIsExact` | src/sweeper.rs:74-124 | two live pushes of a letter, claimed or not, never overlap in any run if and only if: nobody pushes before claiming, no failures are reported without a claim, not both kills and revivals, and no sweeper, or one whose snapshot-to-clock gap plus the reporting deadline is under 151 seconds |
| `Lease.PushFirst` | src/server.rs:340-362 | otherwise: whoever saw the letter queued, as the register re-push, the inbound push and the push on arrival do, pushes it beside a dispatcher that claimed it |
| `Lease.SlowSweeper` | src/sweeper.rs:74-91 | otherwise: a run in which the sweeper takes the next dispatcher's live claim |
| `Lease.TwoSweepers` | src/sweeper.rs:74-91 | otherwise: a run in which two sweepers condemn one dead claim and take a live one |
| `Lease.StrayFailure` | src/server.rs:166-208 | otherwise: a failure reported without a claim, as after a push on arrival, gives a live claim away |
| `Lease.KilledAndRevived` | src/store/memory.rs:183-261 | otherwise: killing a letter in flight with a credential reason and reviving it gives the claim away |
| `Lease.UnclaimedReport` | src/server.rs:193-207 | a successful push on arrival delivers the letter if and only if somebody else has claimed it, and changes nothing otherwise; a failed one takes that claim away, or gives the letter up when its attempts are used |
| `Lease.ArrivalIsForgotten` | src/server.rs:161-197 | a push on arrival that succeeds, alone with its letter, leaves it queued and exactly as before the push: it is pushed again |
| `Lease.ArrivalGivesAway` | src/server.rs:198-202 | a run in which the failed push on arrival queues a letter that a live dispatcher is pushing |
| `Lease.RepushReports` | src/server.rs:340-385 | a re-push that claims after it has pushed counts as one attempt and delivers the letter |
| `Sweeper.WindowIs` | src/sweeper.rs:48-52 | for all durations: with a step of the whole seconds of the minimum backoff, or one second if that is none, the window is step * 2^min(5, floor(log2(age/step))), and the 64-bit shift loses nothing |
| `Sweeper.WindowGrows` | src/sweeper.rs:48-52 | the window is monotone in age and lies between one step and 32, the step being max(1, whole seconds of the minimum backoff) |
| `Sweeper.GateIsOneStep` | src/sweeper.rs:100-105 | a letter is passed over if and only if there is a minimum backoff and its age in whole seconds is under max(1, that backoff in whole seconds): the doubling never delays a retry |
| `Sweeps.SweepOnce` | src/sweeper.rs:61-157 | an uninterrupted sweep changes every letter by both passes (`FirstPassFrees`, `SecondPassTries`) and returns exactly the rise in delivered letters |
| `Sweeps.PushPass` | src/sweeper.rs:93-157 | the claim, push and report loop changes each due letter by two operations, and counts exactly the deliveries |
| `Sweeps.ReclaimPass` | src/sweeper.rs:74-91 | the first loop changes every letter by the first pass (`FirstPassFrees`) |
| `Sweeps.FirstPassFrees` | src/sweeper.rs:74-91 | the first pass re-queues a letter in flight whose last claim is 151 seconds old, keeps its attempts and notes the age in whole seconds; it changes no other letter |
| `Sweeps.DecimalIs` | src/sweeper.rs:74-91 | the seconds in that note are written in decimal |
| `Sweeps.DueExactly` | src/sweeper.rs:100-105 | a letter is due if and only if it is queued and there is no minimum backoff, or at least max(1, its whole seconds) have passed since the letter was created |
| `Sweeps.SecondPassTries` | src/sweeper.rs:116-155 | a due letter has one attempt more and the time of its claim, and is then delivered, queued or dead by the outcome of its push; a letter that is not due is unchanged |
| `Sweeps.StaleIsTriedAgain` | src/sweeper.rs:74-157 | a stale letter whose backoff has elapsed is tried again in the same sweep: one attempt more, and delivered if and only if its push succeeds; otherwise it is queued with its attempts |
| `Sweeps.SweepTouchesOnly` | src/sweeper.rs:61-157 | a sweep changes only due and stale letters, and none that is delivered, read, acked or dead |
| `Sweeps.RoundsActLetterwise` | src/sweeper.rs:61-157 | any number of sweeps of a whole store is the same number of sweeps of each letter |
| `Sweeps.DiesInFirstLethalRound` | src/sweeper.rs:116-155 | for every mixture of failed, skipped and gated rounds: the letter dies in the first round that fails it for no credential reason with 8 attempts used, and every tried round, a skipped one too, costs an attempt |
| `Sweeps.PoisonPolicy` | src/state.rs:174-176 | with only such failures: dead after exactly max(1, 8 - a) sweeps with max(8, a + 1) attempts |
| `Sweeps.AuthNeverKills` | src/store/memory.rs:144-181 | credential failures and skips leave the letter queued after any number of sweeps |
| `Threads.ThreadRootId` | src/message.rs:91-102 | the 32-step loop climbs to the root along references that are stored and not to the letter itself |
| `Threads.HitsWhenReached` | src/server.rs:529-548 | the collecting walk accepts a letter if and only if at most 16 references lead from it to the root |
| `Threads.ThreadMembership` | src/server.rs:529-548 | a letter is in a thread if and only if at most 16 references lead from it to the root of the letter asked for |
| `Threads.RootIs` | src/message.rs:91-102 | the root is where the climb ends, after at most 32 references |
| `Threads.MessageThread` | src/server.rs:497-556 | the answer: missing id, unknown id, or exactly the letters whose walk meets the root, each once, oldest first and by id where times are equal |
| `Threads.ThreadsAgreeExactly` | src/server.rs:529-556 | where references do not go round, collected threads are the classes of letters with equal root if and only if no letter is more than 16 references below its root |
| `Threads.ThreadsPartition` | src/server.rs:529-556 | then every letter is in its own thread, and two threads are equal or disjoint |
| `ThreadRuns.ListingRefs` | src/message.rs:91-102 | the references read off a listing are those of the store |
| `ThreadRuns.ReplyJoinsThread` | src/message.rs:91-102 | a reply has the root of the letter it answers if and only if that one is at most 31 references deep |
| `ThreadRuns.ChainsAlwaysEnd` | src/bus.rs:104-108 | on every reachable store references stay acyclic, apart from self-references, under sends with fresh ids and deletions |
| `ThreadRuns.RootsArePermanent` | src/message.rs:91-102 | over every run without deletions a letter keeps its root |
| `Base64Url.B64UrlEncode` | src/handshake.rs:170-190 | the loop over groups of three computes the encoding |
| `Base64Url.B64UrlDecode` | src/handshake.rs:145-167 | the loop over groups of four computes the decoding, failing on any foreign character and on bytes that are no text |
| `Base64Url.RoundTrip` | src/handshake.rs:145-190 | decoding undoes encoding for every sequence of bytes |
| `Base64Url.LengthIs` | src/handshake.rs:170-190 | the encoding of n bytes has 4 * (n / 3) plus 0, 2 or 3 characters: no padding |
| `Base64Url.BitsBack` | src/handshake.rs:145-190 | the four sextets of three bytes give the bytes back |
| `Base64Url.AlphabetIs` | src/handshake.rs:170-190 | the alphabet, place by place: capital letters, small letters, digits, minus, underscore |
| `Base64Url.SameBits` | src/handshake.rs:170-190 | three bytes and their four sextets are the same 24 bits, most significant first |
| `Base64Url.GroupShows` | src/handshake.rs:170-190 | three bytes show as the characters of their four sextets, in order |
| `Base64Url.ShortGroupsShow` | src/handshake.rs:170-190 | one or two bytes at the end show as if zero bytes followed, without the characters that hold none of their bits |
| `Base64Url.ReadsExactly` | src/handshake.rs:145-167 | a character reads if and only if it is a padding sign, as zero bits, or in the alphabet, as its place |
| `Base64Url.FourDecode` | src/handshake.rs:145-167 | four characters decode if and only if each of them reads, and then to the three bytes with the same 24 bits |
| `Base64Url.ShortGroupsDecode` | src/handshake.rs:145-167 | fewer characters at the end decode as if filled with padding signs, to one byte less than there are characters, but to one at least |
| `InviteCodes.CodeIsReadable` | src/handshake.rs:42-52 | decoding the text after the last dash of a code gives the payload back if and only if its encoding has no dash |
| `InviteCodes.SevenBitCodes` | src/server.rs:1094-1099 | for 7-bit payloads: readable if and only if no tilde or greater-than sign stands on the third byte of a group |
| `InviteCodes.UrlCodes` | src/handshake.rs:42-52 | the payload of an invite is readable if and only if no tilde or greater-than sign stands at a position of the URL, as JSON writes it, that is divisible by three |
| `InviteCodes.PayloadIs` | src/handshake.rs:42-52 | what a code carries is the JSON object with the URL under `url` |
| `InviteCodes.UrlReadsBack` | src/handshake.rs:42-52 | the URL as JSON writes it, every escape included, is the URL that JSON reads |
| `InviteCodes.FreshUuidsGiveFreshCodes` | src/handshake.rs:42-52 | codes with different uuids are different, whatever they carry |
| `InviteCodes.PlainIsEscaped` | src/handshake.rs:42-52 | JSON writes printable URLs without quotes and backslashes as they are |
| `InviteCodes.TildeUrlIsLost` | src/server.rs:1094-1099 | the invite of http://aa.b/~x cannot be read by the joiner |
| `Invites.InviteStore.CreateInvite` | src/handshake.rs:124-131 | prunes what is used or expired, then adds the new invite |
| `Invites.InviteStore.ConsumeInvite` | src/handshake.rs:134-141 | accepts and marks the first usable invite with the code, or refuses and changes nothing |
| `Invites.RunMirrors` | src/handshake.rs:123-141 | over every run the pruned list holds all of the unpruned record that is still valid |
| `Invites.AcceptedExactlyWhen` | src/handshake.rs:54-56 | a code is accepted if and only if it was issued before, less than ten minutes ago, and never accepted yet |
| `Invites.AcceptedOnce` | src/handshake.rs:134-141 | no code is accepted twice in any run |
| `Bus.EventBus.SendEnvelope` | src/bus.rs:72-109 | the gates in order, then the store; a refusal stores nothing |
| `Bus.EventBus.BroadcastAll` | src/bus.rs:113-131 | the loop sends copies up to the first refusal |
| `Bus.SendRules` | src/bus.rs:72-109 | a letter is accepted if and only if its sender is registered, a broadcaster is a manager, a reply names its parent, any other receiver is registered, and there is room |
| `Bus.Refusals` | src/bus.rs:72-109 | which refusal a letter meets, each if and only if: unknown sender, broadcaster without the role, reply without parent, unknown receiver, full mailbox; a refused letter reaches no mailbox |
| `Bus.BroadcastReaches` | src/bus.rs:113-131 | a manager's broadcast puts exactly one copy into the mailbox of every registered agent but the sender, and nothing elsewhere: a new broadcast letter with this subject and body, no parent, no hops, no origin, and the id that stands for that agent in the list returned |
| `Bus.BroadcastStops` | src/bus.rs:113-131 | a broadcast ends at the first full mailbox and names it: the agents before it have their copies, nobody else has got anything |
| `Bus.OnlyManagersBroadcast` | src/bus.rs:82-88 | anyone else's broadcast stores nothing and is refused if and only if there is somebody else to send to |
| `Bus.EventBus.Register` | src/bus.rs:39-43 | records the role and registers with the store, keeping the other roles, registrations and all letters |
| `Bus.EventBus.Unregister` | src/bus.rs:49-53 | drops role and registration, keeps the others in order and every letter |
| `Federation.ResolvesToFirst` | src/federation.rs:103-111 | an agent's home is the first peer that lists it, and none if and only if none does |
| `Federation.ConfiguredPeersWin` | src/server.rs:776-784 | an agent's home is looked up among the configured peers before the learned ones |
| `Federation.TypeAcrossWire` | src/server.rs:577-582 | a message type survives forwarding if and only if it is not the bare acknowledgement, which arrives as a task |
| `Federation.TypesOnWire` | src/server.rs:577-582 | which names stand for which types: anything but "reply", "broadcast" and "ack_only" is a task |
| `Federation.ForwardsBelowLimit` | src/federation.rs:116-131 | a letter is handed on if and only if it has fewer than two hops, as it is but with one more, as this pool's, to the peer's url with the peer's token |
| `Federation.AdmittedExactly` | src/server.rs:661-684 | a link admits a request if and only if it carries the pool's token, if there is one, an origin, and one or two hops as read into eight bits |
| `Federation.InboundExactly` | src/server.rs:661-710 | over a link a letter is accepted, and then stored, if and only if it is admitted, its receiver is known or is the sender or it is a broadcast, a broadcaster is a manager, a reply names its parent and there is room; an admitted sender is registered as a worker unless it has a role, and a request that is not admitted changes nothing |
| `Federation.LocalExactly` | src/server.rs:845-860 | a client's letter for an agent without another home is accepted, and stored, if and only if the rules of sending hold, and registers nobody |
| `Federation.OutboundRegisters` | src/server.rs:776-842 | a client's letter for an agent at home elsewhere registers that agent as a worker, whatever comes of it, and is accepted if and only if it is sent on |
| `Federation.BroadcastWrites` | src/server.rs:636-659 | a request for all stores what the broadcast sends, one letter for each id it returns |
| `Federation.StoresWhatWasSent` | src/server.rs:661-860 | a pool stores exactly what the request says, for its receiver and nobody else, with the announced hops and pool over a link, with this pool and no hops when it is about to leave, and with neither when it stays |
| `Federation.SentOnExactlyWhen` | src/server.rs:776-842 | a letter is sent on if and only if a client sent it to one agent whose home is a peer, its sender is known or is that agent, a broadcaster is a manager, a reply names its parent, there is room, and nobody polled it in between; it goes to that peer with that peer's token |
| `Federation.ArrivalsStay` | src/server.rs:661-773 | a request that carries the pool header, or is for all, is never sent on |
| `Federation.RelayedOnce` | src/federation.rs:116-131 | what is sent on carries one hop, the pool's name and header for the same receiver, and leaves one twin with no hops |
| `Federation.StoredOnce` | src/server.rs:661-860 | a request for one receiver stores at most one letter; over a link it carries the hops it announces, within the limit |
| `Federation.RelayIsAdmitted` | src/server.rs:669-684 | a relayed request passes the far pool's envelope checks when the peer token is right |
| `Federation.TwinsAgree` | src/federation.rs:116-131 | the twins agree on everything the client wrote and on their origin, differ by one hop, and in type only for a bare acknowledgement |
| `Network.ReceiptSettlesTwin` | src/server.rs:820-832 | a receipt delivers exactly the twin that it names, if it is still queued |
| `Network.HandoverCompletes` | src/server.rs:776-842 | the run of one handover: if the far pool accepts, the letter ends delivered at home at the time of the receipt, and its twin waits queued, with one hop, in the receiver's mailbox at the peer |
| `Network.JoinReplaces` | src/handshake.rs:98-103 | a peer that is learned takes the place of those with its name and leaves the others |
| `Network.NothingGoesRound` | src/federation.rs:21-31 | in any network with any peer tables, while pools learn peers, under any order and loss of messages: one client send is forwarded at most once and stored at most twice, with hops 0 and 1, and its home twin is settled only if the far twin was stored |

## Left out

- Concurrency in sled: an update is a scan followed by an insert, not one atomic step, so the sled backend is modelled for sequential use; its crash recovery and file format are not modelled.
- Names with a colon, and the reserved name `__agent__`, in the comparison of the backends (`SledLives` allows them): `SledTree.ScanVisits` and `SledTree.ScanMeetsMarker` say exactly what a scan does with them.
- The two clock readings of filing a result in sled: the comparison of the backends takes them as equal; the method itself is modelled with both.
- `Backends.BackendsAgree`: that no dead letter is killed or reported as failed is a condition on what the run finds, not on its operations alone; the others are conditions on the operations.
- The order in which the in-memory store searches its mailboxes for a deletion: any order is allowed, and it matters only if two letters share an id.
- Times before the epoch and creation times beyond 20 digits of milliseconds: the original clock cannot represent the latter.
- The width of the attempt counter (32 bits): it would overflow after four thousand million claims without a revival.
- `Base64Url.B64UrlDecode`: whether bytes are valid text is a parameter, because UTF-8 validity is the standard library's; every payload that was a string passes it. JSON parsing of the payload is not part of this model.
- The uuid inside an invite code, and the freshness of codes and ids: assumed, not generated.
- `Lease.LeaseIsExact`: one letter; deletions are not among the steps, since a deleted letter can no longer be claimed. A party that pushes first and claims afterwards is not counted as pushing while it holds that claim.
- `Sweeps.SweepOnce`: no other writer in between, as its contract equates whole states; interleavings are the subject of `Ledger` and `Lease`. The thread key and the events that a sweep emits are not modelled.
- The push on arrival, the register re-push and the inbound push as code: they are sequences of store operations that are modelled one by one; `Lease` has them as parties that push a letter they have seen queued and claim it afterwards or never.
- `Federation.Handle`: a pool stores and looks up a letter in one step; that another caller polls it in between, on which the original fails, is a parameter.
- `Network.NothingGoesRound`: requests to the receiver `all` are routed as broadcasts and not counted, and clients that forge the pool header are not clients in its sense.
- Peek, sent-by, archive, agent listing, tags, dashboards: read-only views that would add only easy members.
- `bookkeep`: only its own unit tests call it.
- Persistence of the registry and of learned peers, peer diagnosis, the federation watch and the live handshake calls: network orchestration with process-wide state.
- HTTP, sessions, bearer checks of the front end, JSON shapes and the event stream.
