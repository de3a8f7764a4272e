# Verified model of the messager's core

The messager signs messages for a set of addresses, hands out their nonces, publishes them, and follows the chain
to learn which of them landed. Its state is one message table and one address table. This project models that core
in Dafny and proves what it keeps, over every input and over whole runs.

- **Chain follower** (`Chain`, `Ancestors`, `TipsetCaches`, `MessageTable`, `Replay`, `Follower`, `FollowerRuns`,
  `FirstBatch`, `FollowerExamples`, `StateRefresh`). A new head is walked back to the highest cached tipset it descends
  from, rows above that tipset are reverted by height, the new branch's messages are applied in one transaction, and the
  processed tipsets are cached. The reference is replaying the branch from genesis, oldest tipset first. One refresh
  agrees with that replay *if and only if* a condition on the state before the step holds, whichever exit the walk takes
  (`RefreshExact`, `AdvanceExact`; `StepExact` when a cached ancestor is met, `ExhaustedExact` when none is,
  `IdleExact` when nothing is applied). The walk, and with it the condition, is determined by the state (`WalkUnique`,
  `WalkStepDetermined`). Over whole runs of heads interleaved with pushes, fills, bad marks and recoveries, the
  invariant holds after every move, and the table agrees with the head's parent after every head, if and only if every
  move is safe in the state it is made in (`RunExact`).
- **Nonce allocator** (`Selection`, `NonceSystem`, `NonceRuns`, `NonceExact`, `NonceRace`, `Crashes`, `CrashRuns`,
  `Workers`, `MessageOps`). Snapshot, dispatch, slot, base nonce, selection, commit, send and release are separate steps
  of an interleaving system, next to pushes, replacements, marks, recoveries, clears and state refreshes. Nonces are
  unique over every run in which no write to an address's stored nonce falls between a selection's snapshot and its slot
  (`RunSafe`); without that hypothesis they are safe in all states of a run *if and only if* every nonce written starts
  above the address's signed rows at that moment (`RunNonceExact`), and two runs from the initial state break it. Mutual
  exclusion and commit-before-push need no hypothesis. Exactly when taking a slot ends the program is `CrashExact`.
- **Both on one table** (`Composition`, `JointRuns`). Over every run of the allocator whose state refreshes are steps of
  the follower, nonces are safe and the follower is right in all states if and only if every nonce is written above the
  address's signed rows and every head, commit and recovery is safe (`JointExact`); no uniqueness is assumed.
- **Publisher** (`DuplicateCache`, `Receiver`, `NodeThreads`), **fees** (`Fees`), **tipset nonces** (`NonceFold`) and
  **range printing** (`Ranges`).

The table invariant (`TableOk`: unique nonces among signed rows, identifiers of a row's own message and signature) is
what the allocator keeps and what the follower relies on: under it, updates that the program makes by identifier and
by looked-up row are row-wise (`UpdateMessageState`), which is why their order does not matter.

Modelling choices. A tipset key and a message identifier are collision-free hashes, so a tipset and a message stand
for their own keys; a BLS-signed message is identified without its signature, as in the program. Messages, receipts
and parents come from the tipset value instead of node calls. Gas estimates, signatures, dial outcomes and the order
of query results are inputs. Heights and nonces are unbounded naturals; the unsigned subtraction of the nonce gap and
the successor in the range merger are 64-bit. A transaction is one step that happens completely or not at all.

What the code does that its comments and tests do not say, each with its exact condition and a run that fails:

- A step that applies two or more tipsets does not cache the lowest one it processed (`CachedVersusProcessed`); a later
  reorganisation below that tipset leaves its rows on chain (`StepExact`, `HoleBreaksReorg`).
- A walk of at most one tipset leaves nothing to apply, and then nothing is reverted (`IdleExact`, `SkippedRevert`); a
  head beside the tip leaves the tip's rows on chain (`BesideTipStays`).
- Reverted tipsets stay cached unless their height is reused (`StepExact`, `AdvanceCache`); when the chain returns to
  one, its messages are not applied again (`StaleEntryLosesRow`).
- A head none of whose ancestors is cached has its branch applied only above the first ancestor not above the lowest
  cached height (`ExhaustedExact`); that ancestor's own messages stay unapplied (`SiblingLosesRow`).
- On an empty cache a notification of two or more tipsets caches its newest one although its messages were not applied
  (`FirstBatchCachesUnprocessed`), and they stay unapplied for good (`LostForGood`, `FirstBatchLosesRow`).
- A recovered row keeps the height it had landed at before it was marked bad (`RecoveredExact`,
  `RecoveredKeepsHeight`).
- A stale snapshot lets a commit hand out a nonce twice (`StaleSnapshotClashes`) and lets the base nonce written back
  lower the stored one (`StaleRebaseLowers`); the exact condition is `RunNonceExact`.
- A worker retired between the context check and the channel send is sent to on a closed channel
  (`RetiredWorkerCrashes`), and a worker kept only because it was busy is started without an address record
  (`MissingRecordCrashes`); the exact condition is `CrashExact`, and no run crashes while no address is dropped from one
  dispatched batch to the next (`GrowingNeverCrashes`).
- The base nonce is raised past the largest nonce consulted only if that nonce is strictly above the chain's
  (`RebaseAboveConsulted`); when it equals the chain's, a filled row's nonce is written back (`StrictCompareReuses`).
  Under the allocator's invariant the base is the chain's nonce and that branch is not reached (`BaseIsFresh`).

## Model

| member | source | states |
|---|---|---|
| Ancestors.LookAncestors | service/message_service.go:588-634 | terminates on remaining local entries plus height; the gap is the parent chain from the head, the revert list a prefix of the local list whose members are not ancestors; gap and revert length are the only ones any of the four exits allows, and those of the highest local ancestor whenever one above height zero lies within 900 iterations |
| Ancestors.WalkUnique | service/message_service.go:597-626 | the walk is determined: whatever exit it takes, it can end in one place only |
| Ancestors.MeetingEnds | service/message_service.go:606-631 | a local ancestor within the limit, with none above it, is where the walk ends |
| Ancestors.MeetingIsHighest | service/message_service.go:606-631 | the tipset met is the highest local one on the head's branch, the gap is exactly the branch above it, the revert list exactly the higher local tipsets |
| Ancestors.MeetingUnique | service/message_service.go:599-626 | at most one place to stop exists |
| Ancestors.RecentHeadMeetsTop | service/message_service.go:555-572 | a head fewer than 900 epochs above a cached top that is its ancestor meets it within the limit |
| TipsetCaches.TipsetCache.Add | service/cache.go:48-54 | later tipsets overwrite entries of the same height, nothing is removed |
| TipsetCaches.TipsetCache.Reduce | service/cache.go:56-68 | a cache of 900 or more entries loses exactly those more than 900 epochs below the current height |
| TipsetCaches.TipsetCache.List | service/cache.go:70-79 | exactly the cached tipsets, one per height |
| TipsetCaches.SortByHeight | service/message_service.go:492-495 | the listed tipsets strictly descending by height |
| TipsetCaches.AddAllEntries | service/cache.go:48-54 | a list without repeated heights is stored whole, every other height keeps its entry, no height is invented |
| TipsetCaches.AddAllStored | service/cache.go:48-54 | a height gets the last tipset listed for it |
| MessageTable.CidDeterminesRow | models/sqlite/message.go:504-523 | in a sound table an unsigned identifier belongs to one row |
| MessageTable.ApplyHit | service/message_state_refresh.go:95-116 | the update by identifier touches exactly the row found by sender, nonce and state, and a conflict changes no other row |
| StateRefresh.RevertByCidIsByHeight | service/message_state_refresh.go:85-90 | reverting by identifier undoes exactly the on-chain rows of active addresses at the reverted heights |
| StateRefresh.MessageService.ProcessRevertHead | service/message_state_refresh.go:144-169 | collects exactly the identifiers of on-chain rows of active addresses at those heights |
| StateRefresh.MessageService.ProcessBlockParentMessages | service/message_state_refresh.go:179-224 | each applied tipset contributes its parent's messages from active senders, in order |
| StateRefresh.MessageService.ApplyMsg | service/message_state_refresh.go:92-116 | whichever matching row the lookup returns, every row ends as the row-wise rule says |
| StateRefresh.MessageService.UpdateMessageState | service/message_state_refresh.go:81-120 | for every iteration order of the revert map the transaction equals the row-wise revert-then-settle and keeps the table sound |
| StateRefresh.MessageService.StoreTipset | service/message_state_refresh.go:122-142 | what is cached for one and for several applied tipsets, and what is dropped |
| StateRefresh.MessageService.DoRefreshMessageState | service/message_state_refresh.go:50-79 | an empty apply list changes nothing, not even the revert list's rows; otherwise table and cache are the specified ones |
| StateRefresh.MessageService.ProcessNewHead | service/message_service.go:480-535 | with an empty cache the batch is applied as it arrives; otherwise the step is the one step the walk determines, and the step to the highest cached ancestor when there is one |
| StateRefresh.MessageService.ReconnectCheck | service/message_service.go:537-586 | asks for a full resynchronisation exactly when no cached tipset is within 900 epochs, otherwise catches up as for a new head |
| Follower.FoundIsMet | service/message_service.go:492-534 | listing, sorting and walking the cache finds the highest cached ancestor and passes exactly the cached heights above it |
| Follower.WalkStepDetermined | service/message_service.go:480-535 | state and head determine the step: one listing, one walk, one table, one cache |
| Follower.ExhaustedWalk | service/message_service.go:598-600 | the walk passes the whole cache exactly when no cached tipset is an ancestor, stopping at the first ancestor not above the lowest cached height, and then reverts every cached height |
| Follower.CachedVersusProcessed | service/message_state_refresh.go:122-142 | every cached tipset was processed in that step; processed but uncached is nothing for one tipset and exactly the parent of the last for several |
| Replay.SettleOrderFree | service/message_state_refresh.go:92-116 | lists with the same members settle a row alike, and settling again changes nothing |
| Replay.RefreshOrderFree | service/message_state_refresh.go:81-120 | every permutation of the apply list gives the same table, and applying it again changes nothing |
| Replay.ApplyLands | service/message_state_refresh.go:92-116 | an included message lands the pending row in its slot on chain if and only if it is the row's own message, under the same signature or with both signatures BLS; otherwise the row is a conflict; receipt, height and tipset are those of the inclusion |
| Replay.UndoneRow | service/message_state_refresh.go:85-90 | a row whose landing is undone and that nothing applied concerns is pending again, without height or tipset and with exit code -1 |
| Replay.ReplayIsFind | service/message_state_refresh.go:179-224 | replaying a branch from genesis lands a row where the branch spends its nonce, on chain if with the row's own message and as a conflict otherwise, or leaves it pending |
| Replay.RowExact | service/message_state_refresh.go:81-120 | a tracked row that agreed with the old branch agrees with the new one if and only if its step condition holds |
| Replay.UntrackedUntouched | service/message_state_refresh.go:144-169 | rows of inactive addresses and unfilled or failed rows are left alone |
| Replay.RefreshExact | service/message_state_refresh.go:50-120 | refresh refines replay: the refreshed table agrees with replaying the new branch if and only if, for every tracked row, an abandoned tipset that spent its nonce is undone and was not a conflict, a kept one is not undone unless applied again, and a new one lies above the base |
| Follower.AdvanceTable | service/message_service.go:518-534 | wherever the walk ends (cached ancestor, exhausted list, genesis, iteration limit), the table agrees with replaying the new branch if and only if the step condition holds for that end and the heights passed |
| Follower.AdvanceCache | service/cache.go:48-54 | all cached tipsets lie on the new branch if and only if every entry off it has its height reused or is dropped |
| Follower.AdvanceExact | service/message_state_refresh.go:50-79 | for every walk the follower's invariant holds after the step if and only if both conditions hold before it |
| Follower.GoodStepTable | service/message_service.go:518-534 | when a cached ancestor is met the table condition is that every abandoned tipset that matters is cached and carried the row's own message |
| Follower.StepExact | service/message_service.go:518-534 | when a cached ancestor is met the invariant holds afterwards if and only if that condition holds and every cached height above the fork is reused or dropped |
| Follower.ExhaustedExact | service/message_service.go:518-534 | when no cached ancestor is met the table is right if and only if every abandoned tipset that matters is cached without conflict and nothing that matters was newly included at or below the tipset where the walk stopped; the invariant holds if, further, every cached height is reused or dropped |
| Follower.ExtensionKeepsGood | service/message_service.go:513-534 | a head that descends from the tip keeps the invariant, whatever it skips |
| Follower.DenseStep | service/message_state_refresh.go:122-142 | from a cache without holes a reorganisation is right if and only if nothing abandoned was a conflict; the cache stays without holes after one-tipset steps and not after longer ones |
| FollowerRuns.FilledExact | service/message_selector.go:633-661 | a committed row keeps the agreement if and only if its nonce is unspent on the branch |
| FollowerRuns.RecoveredExact | service/message_service.go:866-893 | recovering keeps the agreement if and only if no recovered row has a height left over and none of their nonces is spent on the branch |
| FollowerRuns.WalkDetermined | service/message_service.go:588-634 | the walk a move records, and with it the condition for the move, is determined by the state before it |
| FollowerRuns.RunExact | service/message_service.go:480-535 | over every run of heads, pushes, fills, bad marks and recoveries, with whatever exit each walk takes: after every move the invariant holds and after every head, idle ones included, the table agrees with the head's parent, if and only if every move is safe where it is made |
| FollowerRuns.MoveToBase | service/message_service.go:588-634 | a move whose head has a cached ancestor within the limit is the step to the highest one |
| FollowerRuns.ExtensionRun | service/message_service.go:480-535 | runs whose heads descend from the tip within the look-back limit are right in every state, and agree with the head's parent after every head other than the tip itself |
| FollowerRuns.OneForOneRun | service/message_state_refresh.go:122-142 | runs of one-tipset steps that reuse the reverted height keep table and cache right, reorganisations included |
| FollowerRuns.IdleExact | service/message_state_refresh.go:50-54 | a walk of at most one tipset changes nothing; the table then agrees with the head's parent if and only if both branches spend the tracked nonces alike |
| FollowerRuns.SkippedRevert | service/message_state_refresh.go:50-54 | when that parent is cached below the tip, if and only if nothing that matters was abandoned |
| FirstBatch.FirstBatchTable | service/message_service.go:502-511 | a first batch of any length takes the table from agreement with the grandparent of its oldest tipset to agreement with the parent of its newest |
| FirstBatch.FirstBatchCachesUnprocessed | service/message_service.go:502-511 | a first batch of several tipsets caches its newest one, which is not processed, and the invariant fails |
| FirstBatch.LostForGood | service/message_service.go:513-534 | over every run that goes on from there, in every state the table is right if and only if no tracked nonce is spent in that tipset |
| FirstBatch.FirstBatchOfOne | service/message_service.go:502-511 | a first batch of one tipset establishes the invariant with a cache without holes |
| FollowerExamples.HoleBreaksReorg | service/message_state_refresh.go:128-136 | a two-step run in which the uncached tipset makes a reorganisation leave a row on chain |
| FollowerExamples.BesideTipStays | service/message_state_refresh.go:50-54 | a two-step run in which a head beside the tip reverts nothing and a row stays on chain |
| FollowerExamples.StaleEntryLosesRow | service/cache.go:48-54 | a three-step run in which a stale entry stops the walk and a row stays pending although its message is included |
| FollowerExamples.FirstBatchLosesRow | service/message_service.go:502-511 | a first batch of two tipsets and one more head after which a row stays pending although its message is included |
| FollowerExamples.SiblingLosesRow | service/message_service.go:598-600 | with one cached tipset, a head descending from its sibling leaves a row pending although the sibling includes its message |
| FollowerExamples.RecoveredKeepsHeight | service/message_service.go:880-889 | a four-step run after which a recovered row is pending with the height it had landed at |
| Composition.CommitIsSafe | service/message_selector.go:633-661 | in every run a commit above the signed rows keeps a right table right if and only if no nonce it hands out is spent on the branch |
| Composition.CommitAboveChain | service/message_selector.go:350-370 | in particular when the base is at least a chain nonce below which the branch has spent everything |
| JointRuns.JointExact | service/message_selector.go:633-661 | over every run of the allocator whose refreshes are follower steps: nonces are unique and below the stored nonce, the table agrees with the chain and the cache lies on it in all states, if and only if every nonce is written above the signed rows and every head, commit and recovery is safe where it happens |
| Selection.Contiguous | service/message_selector.go:412-472 | selected messages get base, base + 1, ... in candidate order with their own estimate and signature |
| Selection.SelectsExactly | service/message_selector.go:412-472 | selected are exactly the estimated, within-limit, signed candidates before the first wallet failure |
| Selection.RecordsExactly | service/message_selector.go:414-451 | errors are recorded for exactly the rejected candidates up to the first wallet failure, each with its own text |
| Selection.AssignNonces | service/message_selector.go:402-472 | the loop with running nonce, counter and its want-count break equals the fold without that break |
| Selection.EstimateRequests | service/message_selector.go:556-607 | candidates are exactly the listed messages whose base-fee cap allows the chain's base fee, in order, each estimated with its own message and its own or else the configured fee cap |
| Selection.BaseAboveConsulted | service/message_selector.go:355-370 | the base is above every row the lookup consults if and only if they are below the nonce read, when the chain is not ahead, and otherwise if and only if the largest of them is not the chain's nonce |
| Selection.MaxMessageNonce | service/message_selector.go:500-535 | the largest nonce of the address's filled rows, or of the recent on-chain rows when there are none |
| Selection.StartNonce | service/message_selector.go:355-370 | the stored nonce; the chain's when ahead; one past the largest nonce consulted when that is ahead of the chain's; written back exactly when the chain is ahead |
| Selection.FilledMessages | service/message_selector.go:537-554 | re-pushed are exactly the signed messages of the address's filled rows at or above the chain nonce |
| Selection.SelectMessage | service/message_selector.go:343-480 | of the first listed messages that fit the window, at most 100, exactly those affordable, estimated within the cap and signed before the first wallet failure are selected, in order, each with its own payload, the next nonce, its own estimate and its own signature; errors are exactly those of the faulty ones; re-pushed are exactly the filled rows not below the chain; the gap never wraps and the assigned nonces end within the window |
| NonceSystem.UpdatedWorksKeys | service/message_selector.go:155-182 | after an update the workers are those of active addresses plus the inactive busy ones, and known workers stay the same |
| Workers.MsgSelectMgr.TryUpdateWorks | service/message_selector.go:155-182 | the two loops compute exactly that map, close exactly the idle inactive workers and give new ones an empty slot |
| Workers.KeepActive | service/message_selector.go:156-166 | known workers of active addresses move over unchanged, missing ones are created |
| Workers.RetireIdle | service/message_selector.go:167-178 | left-over workers: busy ones are kept, idle ones are filled and closed |
| NonceSystem.TakeSlotOk | service/message_selector.go:286-303 | taking a free, open slot keeps at most one selection per address |
| NonceSystem.CommitExact | service/message_selector.go:633-661 | storing a non-empty selection keeps nonces unique and below the stored nonce if and only if every signed row of the address is below the base |
| NonceSystem.SaveErrsText | service/message_selector.go:649-654 | recording errors changes the error column alone, to the text recorded last for the row |
| NonceSystem.CommitData | service/message_selector.go:633-661 | rows, stored nonce and identifiers after a commit from the stored nonce are sound, and other addresses are untouched |
| NonceSystem.RebaseAboveConsulted | service/message_selector.go:355-370 | the same over every state and rebase event, without the invariant |
| NonceSystem.BaseIsFresh | service/message_selector.go:355-370 | under the invariant the base is the stored nonce, or exactly the chain's when that is ahead, and above every signed row of the address |
| NonceSystem.ReplaceOk | service/message_service.go:845-860 | replacing a filled row keeps nonces and identifiers sound |
| NonceSystem.RecoverOk | service/message_service.go:866-893 | recovering failed rows keeps nonces and identifiers sound |
| NonceSystem.RefreshOk | service/message_state_refresh.go:81-120 | a state refresh keeps nonces and identifiers sound and disturbs no running selection |
| NonceSystem.StepKeeps | service/message_selector.go:92-121 | every step keeps the whole invariant, provided a slot is taken with a current snapshot |
| NonceRuns.RunSafe | service/message_selector.go:92-121 | in every state of every run without a write between snapshot and slot, nonces are unique and below the stored nonce and identifiers are right |
| NonceExact.EventExact | service/message_selector.go:355-370 | one event in any sound state: nonces stay safe if and only if a commit that stores something, or a base nonce written back, starts above every signed row of the address |
| NonceExact.RunNonceExact | service/message_selector.go:633-661 | over every run, without hypothesis: nonces are unique and below the stored nonce in all states if and only if every such write starts above the signed rows |
| NonceRuns.AcquiresFresh | service/message_selector.go:286-303 | no write between snapshot and slot means the slot is taken with the stored nonce |
| NonceRuns.RunExclusive | service/message_selector.go:286-303 | at most one selection per address in every state of every run, across retired and re-created workers |
| NonceRuns.CommitBeforePush | service/message_selector.go:306-340 | in every run whatever reached the receiver was stored before, by a replacement or by a commit that moved the stored nonce above it |
| NonceRuns.RepushedExactly | service/message_selector.go:537-554 | in every run what a selection sets aside is exactly the signed messages of the address's filled rows at or above the chain nonce its rebase read |
| NonceRuns.SentExactly | service/message_selector.go:325-340 | in every run a delivered send adds exactly the committed picks and the messages set aside, an undelivered one nothing |
| NonceRuns.SentOtherwise | service/message_service.go:895-913 | besides sends only a delivered republication reaches the receiver, with the signed message of the filled row named |
| Crashes.FullIsBusy | service/message_selector.go:294-303 | an open slot is full exactly while a selection of its address runs |
| Crashes.AcquireOutcome | service/message_selector.go:294-303 | a selection that does not crash gives up if another one of its address runs, and holds the slot otherwise |
| Crashes.CrashExact | service/message_selector.go:286-303 | in every run a step crashes if and only if it takes a slot after a dispatch that did not list the address found no selection of it running since the check, or without an address record while no selection of the address runs |
| Crashes.NeverCrashes | service/message_selector.go:286-303 | a run never crashes if and only if every slot is taken under that condition |
| Crashes.GrowingNeverCrashes | service/message_selector.go:92-121 | no run crashes while every dispatched batch lists all addresses listed by the batches dispatched before it |
| CrashRuns.RetiredWorkerCrashes | service/message_selector.go:167-178 | a run from the initial state that sends on the closed channel of a worker retired after the context check |
| CrashRuns.MissingRecordCrashes | service/message_selector.go:117-119 | a run from the initial state that starts a worker without an address record |
| NonceRace.StaleSnapshotClashes | service/message_selector.go:92-121 | a run from the initial state with one commit between snapshot and slot ends with two signed rows of one nonce |
| NonceRace.StrictCompareReuses | service/message_selector.go:361-365 | a run from the initial state in which the chain's nonce is the largest among the filled rows and is written back as the base |
| NonceRace.StaleRebaseLowers | service/message_selector.go:355-370 | a run from the initial state in which a base nonce from a stale snapshot is written back and lowers the stored nonce to one in use |
| MessageOps.MessageStore.PushMessage | service/message_service.go:169-228 | the stored row is the message with the sender's key address, nonce zero and its own payload and fees, without identifiers; address record created; unresolved senders and senders the wallet lacks leave no trace, forbidden senders and reused ids are refused |
| MessageOps.MessageStore.ReplaceMessage | service/message_service.go:753-860 | succeeds exactly on a signed-for filled row, which then carries the replacement's fees under the maximum in force, its identifiers and signature; no other row changes |
| MessageOps.MessageStore.RecoverFailedMsg | service/message_service.go:866-893 | exactly the signed failed rows at or above the chain nonce become filled, none when the chain is ahead |
| MessageOps.MessageStore.ClearUnFillMessage | service/message_service.go:945-964 | exactly the pending rows of the address are marked failed, and counted |
| Fees.RBFIsLeast | service/message_service.go:1085-1096 | the computed minimum is the least premium above the required percentage |
| Fees.CapGasFee | service/message_selector.go:717-732 | total within the maximum, premium within the cap, a lowered cap is the largest that fits, no division by zero |
| Fees.EffectiveMaxFee | service/message_service.go:791-824 | the maximum of the strongest source that sets one: request, address, actor configuration, shared parameters; zero only when none does |
| Fees.AutoReplace | service/message_service.go:773-826 | the premium is the larger of the estimate and the least outbidding one, the fee cap the larger of the estimated cap and that premium; above the maximum fee the cap is the largest that fits and the premium at most that; the new premium outbids the old one if and only if the minimum bid fits under the maximum |
| DuplicateCache.CachePublisher.HandleBatch | publisher/publisher.go:285-298 | forwards the uncached, unrepeated messages in order and marks all |
| DuplicateCache.CachePublisher.HandleTick | publisher/publisher.go:299-307 | new marks turn old, old marks are dropped |
| DuplicateCache.CacheIsWindow | publisher/publisher.go:278-311 | after any trace an identifier is marked new if and only if submitted since the last tick, and cached if and only if submitted since the tick before |
| DuplicateCache.ForwardedExactly | publisher/publisher.go:285-298 | forwarded at most once per batch, and if and only if two ticks passed since every earlier submission |
| DuplicateCache.FreshKeepsOrder | publisher/publisher.go:285-298 | filtering keeps a sorted batch sorted |
| Receiver.GroupByAddress | utils/util.go:64-70 | each sender's group is its messages in order |
| Receiver.Receive | publisher/modules.go:37-45 | groups have one sender each, no two the same, ascend by nonce, and together are a permutation of the batch |
| NodeThreads.RpcPublisher.PublishMessages | publisher/publisher.go:94-147 | every thread opened is live or closed exactly once; live are the listed nodes that were live or are dialled now; kept threads stay the same |
| NodeThreads.LiveExactly | publisher/publisher.go:94-147 | over any run a node is live if and only if a dial succeeded and it has been listed ever since |
| NonceFold.NoncesInTipset | service/message_selector.go:124-153 | the mutable map holds each sender's fold |
| NonceFold.AppliedChain | service/message_selector.go:126-139 | the next nonce is the first plus the length of a chain of consecutive nonces, so every nonce in between occurs in order |
| NonceFold.AppliedLongest | service/message_selector.go:126-139 | no chain from the sender's first message is longer |
| NonceFold.AppliedIsLargestPlusOne | service/message_selector.go:126-139 | for gap-free messages, repeats allowed, it is the largest nonce plus one |
| Ranges.Merge | utils/convert_params.go:149-170 | expanding the runs gives the list back, and runs are separated by a missing value |
| Ranges.CanonicalUnique | utils/convert_params.go:149-170 | no other separated runs expand to the same list |
| Ranges.TextReads | utils/convert_params.go:130-144 | runs printed in decimal with dashes and commas read back, digit by digit in base ten, as the same runs |
| Ranges.ConvertBitFieldToString | utils/convert_params.go:123-147 | the printed text reads back as the list's maximal runs |
| Ranges.PrintedInjective | utils/convert_params.go:123-147 | two lists print alike if and only if they are equal |

## Left out

- NonceSystem.ReplaceOk: reading a row, estimating, signing and writing it back is one step on a filled row; a row that changes between the read and the guarded write is not modelled.
- Crashes.CrashExact: retiring a worker fills its slot, cancels its context and closes its channel in one step; a selection that checks or sends between these three gives up instead of crashing, which is not modelled.
- Database backends: gorm, SQL, both schemas and partial failures inside an operation; the queries used are modelled by what they return.
- Operator overrides that break the invariants by design: setting a row's state or an address's nonce directly, deleting and re-creating an address.
- The manual branch of `ReplaceMessage`: its fee-cap check compares the old message's own values, so it bounds nothing about the new ones.
- `UpdateAllFilledMessage` and `updateFilledMessage`: the resynchronisation by searching the node for each message; `ReconnectCheck` only says when it is asked for.
- Node errors while walking back, and a mismatch between the numbers of messages and receipts: the step is then not made.
- `mergeMsgSpec`, `addrSelectMsgNum`, `getActorCfg` and configuration defaults: branch selection only; their results are inputs.
- Gas over-estimation and premium factors: passed on to the node, not computed with here.
- Timers, contexts, the head-stability delay, `WaitMessage`, and which queued head is processed when; only the duplicate cache's tick is kept.
- Delivery inside the publishers: per-node queues, pushing to the mempool, recording push errors, peer-to-peer publishing, the merging and concurrent wrappers.
- The value type of a mutable message pointer: selection and replacement build new rows instead of changing fields in place, so aliasing of one message by several callers is not captured.
- Cache file load and save, command line, table writer, permission wrappers, metrics, gateway client.
