# A Dafny model of the sync worker

The worker serves Matrix sync for a Synapse server: sliding sync connections, classic `/sync` and `/events`,
fed by a database and a replication channel. What it must never do is lose a change: each part remembers what a
client was told, and every later answer starts from that memory. The model covers the three places where that
memory lives.

* **Sliding sync connections.** `RoomConfig`, `RequiredState`, `RequiredStateDelivery`, `RequiredStateMemory`,
  `RequiredStateRuns`, `RoomStatus` and `Connection` cover what a request asks for, the diff against what is stored,
  and a ghost account of what each branch of a connection described. `ConnStore`, `SlidingStore` and `LazyStore` cover
  the store of positions a connection may fork from. `StoreRefinement` runs the protocol of `Connection` on its tables,
  and `LazyRuns` the copies of `RequiredStateRuns` on the lazy-member table.
* **Replication, notifier, caches.** `Replication` and `Subscriber` cover the command handler, `Notifier` and
  `Wakeup` the long polls against it, `DerivedCache`, `Invalidator` and `Lru` the guarded caches, `StreamGate` and
  `StreamCache` the stream-change caches. Steps of readers and pollers fall between any two steps of the replication
  thread.
* **Windowed delivery.** `Timeline`, `StateBlock`, `EventStream` and `ToDevice`.

`Common` and `StringOrder` hold helpers. `dafny verify dfyconfig.toml` checks everything.

Stream positions and tokens are integers, each SQL transaction is one step, and deleting a connection or a position
deletes the rows that hang off it. Calls into code that is not part of this model are parameters with the contract
their callers rely on: everything at or below an announced position is committed. `Connection` takes the stream-change
cache's reports to have no false negatives, and `StreamGate` says when they have none. Map iteration order is left open
wherever the source leaves it open.

Where a promise turned out false of the code, the model keeps the code and states when it holds, as an if and only if
unless said otherwise:

* An incremental response may store a config that vouches for state the client does not hold, exactly when a type
  inherits `$ME` in the first pass while the user's own state of that type moved (`StoredStateDelivered`,
  `StaleMeExample`).
* Two other responses may leave such a config. An invite or a knock stores the request and sends no state,
  so its config is honest exactly when the client already holds, unmoved, all it covers (`InvitedVouchesIff`); a room
  joined while outside the windows never makes up for it (`InvitedRunExample`). And a live room that is none of the request's
  rooms moves on to the new token with nothing sent, so its config stays honest exactly when nothing it covers moved
  (`LeftOutVouchesIff`, `LeftOutRunExample`). Over every run, the configs of a branch back to its last answer from scratch
  are honest exactly when each answer since met its own condition of these three (`ConfigVouchesIff`).
* Members named in the request that first asks for `$LAZY` are not fetched (`ExplicitMembersDelivered`,
  `MissedExample`).
* The diff relies on being told which memberships were recorded as sent, to take changed ones off the record. Nothing
  tells it: `Build` leaves that input empty. So a recorded membership that moves in a response whose plan does not want
  it stays on the record while stale, and that is exactly when the record is wrong (`LazyMemoryUntold`,
  `RecordGoesStaleExample`). Told everything, the record is sound (`LazyMemorySound`). That is for a client that holds
  what the stored config covers; without that premise, members recorded on the config's word alone are the second way,
  and over every run a branch's record is sound throughout exactly when no answer did either (`RecordSoundThroughoutIff`).
* The comment on the diff says an absent change leaves the stored config alone; the resolver stores the request
  instead. A dropped key therefore stays remembered exactly when something else gave the diff a change to report, its
  own state did not move and the cap did not cut it (`ResolverKeepsDropped`, `ResolverForgetsDropped`). The run
  properties about remembering are about the diff as its comment reads it.
* A live room that leaves the requests' rooms is handed on as live, exactly losing what happened in it meanwhile
  (`LeavingLosesExactlyEvents`, `LeavingExample`).
* A stream-change cache must never say "unchanged" of something that changed. An announcement, or a row that names
  nobody, empties the cache and moves its horizon up to its own position, also when that lies below changes the cache
  knew of: another writer announcing a lower position makes it deny them (`LowerAnnouncementForgets`). And a cache armed
  bare at a position, as two of them are, does not know what was committed above it meanwhile. A cache is complete
  throughout exactly when neither happened (`CompleteThroughoutIff`, `AnnouncedFineIff`, `BareArmFineIff`), and then it
  denies nothing a token covers (`NoFalseNegative`).
* The guard of the caches opens in the middle of a batch: a horizon is safe up to the subscriber's position, and for
  every horizon above it some run serves a stale entry (`ServedIsCurrent`, `GuardOpensMidBatch`). And a query overtaken
  by its own invalidation is stored stale (`OvertakenFillIsStale`); it is enough that nothing drops the room between
  query and store.
* Rejected rows can use up a timeline's window, or a room's share of an event page, so that a timeline calls itself
  complete with events missing, or a page's token steps over one (`IncrementalTimeline`, `PageIsHeadIff`).
* A lookup of lazily sent members may show a row of a sibling fork: it is the branch's own exactly when it is at no
  position or at one of the branch's (`ShownRowIsOwnIff`, `SiblingRowsShow`). Own rows inherit the record's soundness
  (`ShownIsCurrent`), others do not (`SiblingShownUnheld`).
* To-device messages that share a stream position across the limit are lost: a response is complete exactly when the
  limit cuts its window between two positions (`CompleteIffCut`, `UncleanResponseLoses`). And messages must arrive above
  every token handed out, not only above those presented: any other is deleted undelivered (`LateArrivalIsLost`).

## Model

| member | source | states |
|---|---|---|
| `RoomConfig.DropStateKey` | internal/slidingsync/roomconfig.go:120-127 | one key is gone from every type, every other key stays, and no type is left empty |
| `RoomConfig.NewRoomSyncConfig` | internal/slidingsync/roomconfig.go:15-59 | the map covers exactly what the list covers under OR-with-wildcards, with no empty type and no subsumed entry |
| `RoomConfig.Canonical` | internal/slidingsync/roomconfig.go:15-59 | two normal maps that cover the same concrete keys are the same map |
| `RoomConfig.NormalisingIsCanonical` | internal/slidingsync/roomconfig.go:15-59 | any two lists with one meaning, in any order, normalise to one map |
| `RoomConfig.CombineRoomSyncConfig` | internal/slidingsync/roomconfig.go:69-115 | whatever the walk order: covers the union, keeps the larger limit, stays normal, and returns the first config's state when it already covers the second |
| `RoomConfig.JoinUnique` | internal/slidingsync/roomconfig.go:69-115 | the join of a set of configs is one config, whatever the fold order, so combining is commutative, associative and idempotent |
| `RoomConfig.JoinIsLeast` | internal/slidingsync/roomconfig.go:69-115 | the join is above every config joined and below every config above them all |
| `RoomConfig.CombineAll` | internal/slidingsync/roomlists.go:346-355 | folding the configs that name one room gives their join |
| `RoomConfig.HasGrown` | internal/slidingsync/roomlists.go:641-651 | combining with the stored config changes it exactly when the request asks for something uncovered or a larger limit |
| `RoomConfig.EncodeRequiredState` | internal/slidingstore/state.go:179-197 | the ascending list of exactly the map's pairs |
| `RoomConfig.DecodeRequiredState` | internal/slidingstore/state.go:200-213 | a map without empty types holding exactly the list's pairs |
| `RoomConfig.EncodingBijective` | internal/slidingstore/state.go:179-213 | two maps have the same encoding exactly when they are the same map |
| `RequiredState.StateFilterFromTypes` | internal/slidingsync/statefilter.go:36-57 | the filter wants a key exactly when some entry names it or its whole type |
| `RequiredState.RememberKeys` | internal/slidingsync/requiredstate.go:173-200 | requested keys plus inheritable ones, backfilled in string order up to the cap |
| `RequiredState.AddedForType` | internal/slidingsync/requiredstate.go:202-225 | the state to fetch for the keys one type gained, `$ME` resolved and lazily sent members skipped |
| `RequiredState.FirstPass` | internal/slidingsync/requiredstate.go:148-225 | for types with new keys: the remembered sets and exactly the state to fetch |
| `RequiredState.SecondPass` | internal/slidingsync/requiredstate.go:247-296 | for types that only lost keys: a change is recorded exactly where state moved or an instruction was dropped |
| `RequiredState.ExtraLazyMembers` | internal/slidingsync/requiredstate.go:298-315 | explicit members handed to the lazy record are those stored before and unchanged |
| `RequiredState.InvalidatedLazy` | internal/slidingsync/requiredstate.go:71-90 | exactly the recorded members that changed and are not sent again |
| `RequiredState.NewMap` | internal/slidingsync/requiredstate.go:317-333 | changes laid over the stored map, empty types removed |
| `RequiredState.ComputeRequiredStateChanges` | internal/slidingsync/requiredstate.go:65-341 | the whole diff: config stored next, state added, members handed over and invalidated, for every input |
| `RequiredStateDelivery.PlanRequiredState` | internal/slidingsync/requiredstateresolve.go:51-147 | the plan wants exactly the state the config names, any type wildcard meaning all, and lazy users exclude explicit ones |
| `RequiredStateDelivery.RequestedStateDelivered` | internal/slidingsync/requiredstateresolve.go:189-222 | a client that held all the stored config covers holds, after deltas and additions, all the request covers, for every non-member key |
| `RequiredStateDelivery.StoredStateDelivered` | internal/slidingsync/requiredstateresolve.go:189-222 | and all that the config stored next covers, whichever it is, exactly when no type inherits a stale `$ME` |
| `RequiredStateDelivery.StaleMeExample` | internal/slidingsync/requiredstate.go:165-200 | an input where it does not |
| `RequiredStateDelivery.AddedIsRequested` | internal/slidingsync/requiredstate.go:148-245 | nothing is fetched but what the request covers or lazy loading wants |
| `RequiredStateDelivery.SentIsRequested` | internal/slidingsync/requiredstateresolve.go:261-303 | and nothing is sent but that: under `$LAZY` the members of the timeline, or any that moved if it is continuous |
| `RequiredStateDelivery.VouchedFetchedIff` | internal/slidingsync/requiredstate.go:107-225 | state the stored config vouches for is fetched again exactly when a type wildcard appears or the request names it anew, and never once all state is stored |
| `RequiredStateDelivery.VouchedNotFetched` | internal/slidingsync/requiredstate.go:148-225 | so without wildcards only the user's own state is ever fetched twice, when it is named the other way |
| `RequiredStateDelivery.VouchedMemberFetchedIff` | internal/slidingsync/requiredstate.go:91-245 | the same for members: also when lazy loading wants one neither sent nor named before, and not while `$LAZY` appears |
| `RequiredStateDelivery.StoredNamesRequest` | internal/slidingsync/requiredstateresolve.go:205-218 | whichever config is stored next names everything requested |
| `RequiredStateDelivery.RepeatAddsNothing` | internal/slidingsync/requiredstateresolve.go:189-222 | so repeating a request fetches nothing, whatever moved meanwhile |
| `RequiredStateMemory.LazyMemorySoundIff` | internal/slidingsync/requiredstateresolve.go:396-426 | after any response, every member on the record is held current exactly when no recorded one moved unsent without being invalidated |
| `RequiredStateMemory.LazyMemorySound` | internal/slidingsync/requiredstate.go:71-90 | told everything recorded, a request with `$LAZY` keeps the record sound |
| `RequiredStateMemory.LazyMemoryUntold` | internal/slidingsync/requiredstateresolve.go:376-384 | told nothing, as `Build` leaves it, the record stays sound exactly when no recorded member changes in a response whose plan does not want it |
| `RequiredStateMemory.RecordGoesStaleExample` | internal/slidingsync/build.go:177-200 | an input where one does |
| `RequiredStateMemory.ExplicitMembersDelivered` | internal/slidingsync/requiredstate.go:160-225 | every explicitly requested member is held afterwards exactly when `$LAZY` did not just appear with new members beside it |
| `RequiredStateMemory.MissedExample` | internal/slidingsync/requiredstate.go:160-172 | an input where one is not |
| `RequiredStateMemory.RelevantMembersHeld` | internal/slidingsync/requiredstateresolve.go:71-107 | with `$LAZY` every membership the timeline makes relevant is held afterwards unless missed, and over a continuous timeline every one that moved is sent |
| `RequiredStateMemory.UnmovedMembersKept` | internal/slidingsync/requiredstate.go:298-315 | a diff that reports a change forgets no member whose membership did not move: it stays named or goes on the record |
| `RequiredStateMemory.DroppedInstructionKeptIff` | internal/slidingsync/requiredstate.go:173-286 | a dropped `*` or `$LAZY` is inherited exactly while its type gains no key and has no state that moved |
| `RequiredStateMemory.LazyMemberKeptIff` | internal/slidingsync/requiredstate.go:247-296 | with `$LAZY` kept and no member newly named, a dropped one stays in the config exactly while no dropped membership moved |
| `RequiredStateMemory.LazyAppearsStoresRequest` | internal/slidingsync/requiredstate.go:160-172 | when `$LAZY` appears only the requested members are stored |
| `RequiredStateMemory.RememberedBounded` | internal/slidingsync/requiredstate.go:27-34 | over any run, a type keeps at most the cap or the largest set a request named |
| `RequiredStateMemory.TurnKeepsIff` | internal/slidingsync/requiredstate.go:148-200 | one turn, exactly: a stored key stays stored if and only if it is requested, or its state did not move and the cap does not cut it |
| `RequiredStateMemory.StoredThroughoutIff` | internal/slidingsync/requiredstate.go:148-296 | over any run without wildcards for the type, a key is stored throughout exactly when every turn keeps it so |
| `RequiredStateMemory.DroppedKeyRemembered` | internal/slidingsync/requiredstate.go:148-200 | and asking for it again fetches it exactly when it is no longer stored, or is the user's own with `$ME` asked for too |
| `RequiredStateMemory.ResolverKeepsDropped` | internal/slidingsync/requiredstateresolve.go:189-222 | through the resolver a dropped key stays stored exactly when some type gained a key or lost a moved one or an instruction, its own state did not move, and the cap does not cut it |
| `RequiredStateMemory.ResolverForgetsDropped` | internal/slidingsync/requiredstateresolve.go:205-218 | and asking for it again fetches it exactly in the other cases, or with `$ME` asked for too |
| `RequiredStateMemory.ResolverForgetsExample` | internal/slidingsync/requiredstateresolve.go:214-222 | an input where a key is forgotten |
| `RequiredStateRuns.ServedVouches` | internal/slidingsync/requiredstateresolve.go:189-222 | one incremental response brings everything requested and everything in the config stored next up to its token, if no type inherits a stale `$ME` |
| `RequiredStateRuns.StaleMeBreaks` | internal/slidingsync/requiredstate.go:165-200 | if one does, the position minted vouches for a stale copy |
| `RequiredStateRuns.InvitedVouchesIff` | internal/slidingsync/requiredstateresolve.go:160-164 | after an invite or a knock, the config vouches only for current copies exactly when the client already held, unmoved, all the request covers |
| `RequiredStateRuns.LeftOutVouchesIff` | internal/slidingsync/build.go:239-259 | a live room outside the request's rooms keeps an honest config exactly when nothing it covers moved since its bound |
| `RequiredStateRuns.AnswerVouchesIff` | internal/slidingsync/requiredstateresolve.go:155-244 | a response of any kind, from scratch, incremental, invite, idle, left out or withheld, leaves an honest config exactly when it meets its kind's condition |
| `RequiredStateRuns.ConfigVouchesIff` | internal/slidingsync/build.go:207-259 | in every run, forks and retries included, all configs of a branch back to its last response from scratch are honest exactly when every response since then met its condition |
| `RequiredStateRuns.ConfigVouches` | internal/slidingsync/build.go:207-259 | so what the config of such a position covers is current on its branch at the position's bound, memberships aside |
| `RequiredStateRuns.RequestedIsCurrent` | internal/slidingsync/roomlists.go:641-671 | and what a response asks of a room in the window, sent or left idle, the client holds as it is at the response's token |
| `RequiredStateRuns.InvitedRunExample` | internal/slidingsync/requiredstateresolve.go:160-164 | a run, invited, then outside the windows, then served, whose last response meets its condition and whose client never gets the name it asks for throughout |
| `RequiredStateRuns.LeftOutRunExample` | internal/slidingsync/build.go:239-259 | a run, live, then left out while the name changes, then served, after which the client keeps the old name |
| `RoomStatus.RoomStatusMap.HaveSentRoom` | internal/slidingstore/state.go:89-97 | the status of the overlay of this request's changes on the stored map |
| `RoomStatus.RoomStatusMap.RecordSentRooms` | internal/slidingstore/state.go:104-111 | exactly those rooms become live, and rooms already live count as no change |
| `RoomStatus.RoomStatusMap.RecordUnsentRooms` | internal/slidingstore/state.go:121-128 | exactly the live ones among them fall behind from the request's token |
| `Connection.RoomsWithUpdates` | internal/slidingsync/roomlists.go:700-727 | no room with an event above the token is left out, whichever source answers |
| `Connection.FilterRoomsToSend` | internal/slidingsync/roomlists.go:621-691 | the rooms to send with the configs requested for them; refused exactly for a long idle connection with too many updates |
| `Connection.RecordResponse` | internal/slidingsync/build.go:207-259 | room by room: served ones live with the config served, withheld live ones behind from the request's token, the others untouched; and whether anything is worth storing |
| `Connection.ChangesIff` | internal/slidingsync/build.go:226-259 | there is something to store exactly when a room was served or a status moved |
| `Connection.ServedIff` | internal/slidingsync/roomlists.go:641-691 | in every run, a room of the window is served exactly when it was reported, is not live, or is asked for a longer timeline or for state its stored config does not cover; a first request is served all |
| `Connection.MintHonest` | internal/slidingsync/build.go:125-259 | a minted position's claim about a room holds at the new token if the old one's held at the old |
| `Connection.StepKeeps` | internal/slidingsync/build.go:125-294 | every step keeps every issued position honest, retries and abandoned requests included |
| `Connection.RunKeeps` | internal/slidingsync/build.go:125-294 | in every run, live means described up to the paired token and previously means up to its own, for a room that stays requested |
| `Connection.NoEventSkipped` | internal/slidingsync/roomdata.go:156-188 | no answer starts above an event its branch has not described, and afterwards everything up to the answer's token is described |
| `Connection.AnswersExactlyUndescribed` | internal/slidingsync/roomdata.go:156-188 | exactly once: an answer not from scratch describes exactly the events up to its token that its branch has not described, and it is from scratch exactly for a first request, a room newly joined or reset, or one never described |
| `Connection.LeavingLosesExactlyEvents` | internal/slidingsync/build.go:228-259 | a live room outside the request's rooms stays honest exactly when nothing happened in it |
| `Connection.LeavingExample` | internal/slidingsync/build.go:228-259 | a run that hands out a position dishonest about such a room |
| `Connection.SentRoomsHaveConfigs` | internal/slidingsync/build.go:212-226 | in every run, a room any position says was sent has its config there |
| `ConnStore.AckSnapshot` | internal/slidingstore/store.go:230-299 | acknowledging leaves every surviving position reading the same |
| `ConnStore.AckIntegrity` | internal/slidingstore/store.go:301-377 | it leaves exactly the referenced required-state rows, and keeps integrity |
| `ConnStore.MintIntegrity` | internal/slidingstore/persist.go:140-202 | a persist keeps every config row pointing at a row of its own connection and no two rows with one encoding |
| `ConnStore.MintSnapshot` | internal/slidingstore/persist.go:29-83 | the new position reads as the previous snapshot overlaid with what was recorded, for its owner |
| `ConnStore.MintOthers` | internal/slidingstore/persist.go:29-133 | and every other surviving position reads as before |
| `ConnStore.RunIntegrity` | internal/slidingstore/persist.go:140-202 | integrity in every reachable state of every interleaving |
| `ConnStore.SnapshotsImmutable` | internal/slidingstore/store.go:230-299 | in every interleaving, a position live at two moments reads the same for the same owner, and one gone never returns |
| `ConnStore.LoadedIsMinted` | internal/slidingstore/persist.go:204-322 | loading at any later moment gives the snapshot it was minted from overlaid with its state, to its owner only |
| `ConnStore.SiblingsGone` | internal/slidingstore/store.go:265-271 | after an acknowledgement every sibling is unknown for ever |
| `ConnStore.FirstInUse` | internal/slidingstore/persist.go:120-133 | a connection's first position counts as a use of it |
| `ConnStore.UsedSurvives` | internal/slidingstore/store.go:263-271 | in every run, a position in use stays loadable through steps that neither acknowledge a sibling, start its owner over nor reap later than the expiry less the allowed staleness |
| `ConnStore.AcknowledgedSurvives` | internal/slidingstore/store.go:263-271 | an acknowledged position, therefore |
| `ConnStore.UnusedIsReaped` | internal/slidingstore/persist.go:425-441 | and a connection nobody used for longer than the expiry does not outlive a reaping |
| `ConnStore.CompleteEitherWay` | internal/slidingstore/persist.go:204-218 | the tables written by copying forward and the flattened state, by copying forward and the changes alone, or by the flattened state alone read the same at the new position |
| `SlidingStore.StreamRows` | internal/slidingstore/persist.go:239-287 | the rows written are each status map flattened, that is its loaded rows with its changes laid over them |
| `SlidingStore.ResolveRequiredState` | internal/slidingstore/persist.go:140-202 | each room gets a row with its encoding, reusing rows that match, with no encoding twice and none changed |
| `SlidingStore.Store.GetAndClear` | internal/slidingstore/store.go:230-299 | no position is no state and no change, a foreign or unknown one is refused unchanged, and otherwise the snapshot is returned and the siblings and unused rows are gone |
| `SlidingStore.Store.LoadState` | internal/slidingstore/store.go:301-423 | the position's snapshot, and exactly the unreferenced required-state rows dropped |
| `SlidingStore.Store.Persist` | internal/slidingstore/persist.go:29-83 | nothing to record gives the position back, an unknown previous one is refused, and otherwise a fresh position reads as the overlay |
| `SlidingStore.Store.ConnectionKey` | internal/slidingstore/persist.go:86-133 | the position's own connection, or a new one replacing the owner's old one with everything under it |
| `SlidingStore.Store.DeleteOldConnections` | internal/slidingstore/persist.go:431-441 | exactly the expired connections go, counted |
| `LazyStore.LazyTable.Persist` | internal/slidingstore/persist.go:334-394 | returned members gain a row against the new position unless some fork has one already, and invalidated ones lose theirs on every fork |
| `LazyStore.LazyTable.Promote` | internal/slidingstore/store.go:265-281 | rows of other positions go, the acknowledged one's hold from now on |
| `LazyStore.AcknowledgedRowsAreOwn` | internal/slidingstore/store.go:265-281 | in every run of forks, after an acknowledgement the table holds only members its own branch was sent and has not invalidated |
| `LazyStore.AcknowledgedKeepsOwn` | internal/slidingstore/store.go:265-281 | and it holds exactly the rows it showed of that branch: no own row is lost |
| `LazyStore.ShownRowIsOwnIff` | internal/slidingstore/persist.go:398-423 | in every run of forks, a row shown at a live position was written on its branch exactly when it is at no position or at one of the branch's, and then the branch was sent the member |
| `LazyStore.SiblingRowsShow` | internal/slidingstore/persist.go:398-423 | whatever two responses to one position, the second branch is shown every member only the first was sent |
| `LazyRuns.RecordSoundIff` | internal/slidingsync/requiredstateresolve.go:396-426 | a response of any kind leaves a sound record exactly when no recorded membership moves in it unwanted, and none is recorded unsent that the client does not hold as it is |
| `LazyRuns.PresumedIsCovered` | internal/slidingsync/requiredstate.go:227-315 | a membership is recorded unsent only if the stored config covers it |
| `LazyRuns.RecordSoundThroughoutIff` | internal/slidingsync/build.go:177-200 | in every run of forks and acknowledgements, every member on a branch's record is held current at all the branch's positions exactly when each of its responses met that condition |
| `LazyRuns.ShownIsCurrent` | internal/slidingstore/persist.go:398-423 | at such a position, a row shown that is at no position or at one of the branch's is of a member held current there |
| `LazyRuns.SiblingShownUnheld` | internal/slidingstore/persist.go:398-423 | whichever branch wrote a row, it is shown at the position of every later response, also where the member is not held at all; it is then another branch's row if this branch's responses met their condition |
| `StoreRefinement.JointRefines` | internal/slidingsync/build.go:115-294 | each step of a connection, done as the store's own transaction among everybody else's, keeps the tables and the protocol in step |
| `StoreRefinement.TablesAreHonest` | internal/slidingstore/store.go:230-299 | in every run of one owner among all the others, a row that says live or previously is true of what its branch was described |
| `StoreRefinement.NoEventSkipped` | internal/slidingsync/roomdata.go:156-188 | with the lower bound taken from the tables, no answer starts above an event its branch has not described |
| `Replication.ToldBatch` | internal/replication/replication.go:593-622 | a completed batch reaches each duty its stream has exactly once, in order |
| `Replication.BatchesConserved` | internal/replication/replication.go:514-622 | for every command sequence without overflow, each row is applied once, in arrival order, under the first numeric position that follows it on its stream, and the buffer is the rest |
| `Replication.RecordedBeforeMoved` | internal/replication/replication.go:593-622 | in every session, wherever a position other than typing's moves, the command that moves it has invalidated and recorded everything it brings, and woken nobody |
| `Replication.TypingMovesFirst` | internal/replication/replication.go:581-591 | typing moves its position before its rows are applied, and wakes after both |
| `Subscriber.Subscriber.Seed` | internal/replication/replication.go:311-319 | positions are raised to the seeds and never lowered |
| `Subscriber.Subscriber.SetLive` | internal/replication/replication.go:451-485 | losing the connection empties typing and every buffer |
| `Subscriber.Subscriber.AdvanceTo` | internal/replication/replication.go:755-811 | only a restarted writer's stream goes down, and then typing it described goes too; database-backed positions never decrease |
| `Subscriber.Subscriber.UpdateTyping` | internal/replication/rows.go:205-237 | a parsed row is filed under its serial; the room's serial and typists follow the log of rows |
| `Subscriber.LastRowCounts` | internal/replication/rows.go:205-237 | of a batch the last row for a room counts: whoever it names is typing there, nobody if it names nobody |
| `Subscriber.NoRowNoChange` | internal/replication/rows.go:205-237 | and a room without a row is left as it was |
| `Subscriber.Subscriber.HandleRdata` | internal/replication/replication.go:514-622 | buffers and effects in order; rows that arrive with a typing reset survive it; overflow drops the session |
| `Subscriber.Subscriber.HandlePosition` | internal/replication/replication.go:684-725 | the announcement's effects; a malformed position does nothing |
| `Subscriber.Subscriber.Session` | internal/replication/replication.go:353-430 | a session does what its commands amount to, up to an overflow, and leaves no buffer behind |
| `Subscriber.Subscriber.TypingIn` | internal/replication/replication.go:339-349 | the whole set the room's latest row named since the last reset or drop |
| `Subscriber.Subscriber.TypingChangedSince` | internal/replication/rows.go:176-203 | while live, exactly the rooms with a row above the position since the last reset or drop, oldest change first; nothing from the current position |
| `Notifier.Interested` | internal/notifier/notifier.go:119-135 | exactly when the row names a declared room or user, or the waiter declared nothing |
| `Notifier.Notifier.Register` | internal/notifier/notifier.go:53-65 | an unwoken waiter under a fresh identifier |
| `Notifier.Notifier.Close` | internal/notifier/notifier.go:84-88 | that waiter is gone and the others stay |
| `Notifier.Notifier.OnStreamAdvance` | internal/notifier/notifier.go:96-117 | exactly the waiters the row concerns are woken, and nobody is unwoken |
| `Wakeup.BatchOrdered` | internal/replication/replication.go:593-622 | in a batch's effects the position moves before anyone is woken for it |
| `Wakeup.StepKeeps` | internal/handlers/sync.go:1005-1041 | every step of pollers and of the replication thread keeps the wakeup invariant |
| `Wakeup.NoLostWakeup` | internal/handlers/sync.go:1005-1041 | in every interleaving, a parked unwoken poll's live token covers every delivered wake that concerns it |
| `Wakeup.WokenTokenCovers` | internal/replication/replication.go:298-304 | positions have reached whatever a wake announced, for ever after |
| `Wakeup.TokenNotAhead` | internal/handlers/tokens.go:49-71 | in every interleaving a token has nothing above what the positions have reached and the client had; the database counts only where replication announced nothing |
| `Wakeup.TokenNotBehind` | internal/handlers/tokens.go:73-81 | and it is raised to what the client came with |
| `DerivedCache.BatchMicros` | internal/replication/replication.go:593-615 | an events batch invalidates every row, raising the applied position after each, and only then moves the position |
| `DerivedCache.StepKeeps` | internal/store/derived.go:129-235 | every step of readers, batches, drops and reconnects keeps the cache invariant |
| `DerivedCache.ServedIsCurrent` | internal/store/derived.go:129-152 | in every run, a clean entry served at a horizon no higher than the subscriber's position reflects every change up to it |
| `DerivedCache.GuardedIsCurrent` | internal/store/derived.go:129-168 | at any horizon the guard lets through, the same once the batch in hand has no row left for the room |
| `DerivedCache.GuardOpensMidBatch` | cmd/gosync-worker/invalidate.go:24-57 | for every position and every horizon above it, a run in which the guard serves a stale entry in the middle of a batch |
| `DerivedCache.OvertakenFillIsStale` | internal/store/sync.go:186-202 | a run in which a query overtaken by its invalidation is stored and served stale |
| `Invalidator.RoomCaches.OnRow` | cmd/gosync-worker/invalidate.go:24-57 | the row's rooms are dropped and then its position counts as applied; other streams touch nothing |
| `Invalidator.RoomCaches.Lookup` | internal/store/derived.go:129-152 | at any point of any run, a cache answers exactly when an armed guard has reached the horizon and the room is held, and a clean answer reflects every change up to the horizon, unless the batch in hand has yet to drop the room and the horizon is past the position |
| `Invalidator.RoomCaches.Arm` | internal/store/derived.go:177-192 | the guard is armed at the positions given, as in a run |
| `Invalidator.RoomCaches.Raise` | internal/store/derived.go:158-168 | the applied position only rises |
| `Invalidator.RoomCaches.Disarm` | internal/store/derived.go:198-209 | nothing is fresh and nothing is held |
| `Invalidator.RowPerformed` | cmd/gosync-worker/invalidate.go:24-57 | the steps a row stands for in a run amount to that call |
| `StreamGate.BatchMicros` | internal/replication/replication.go:605-615 | a cache is fed every row of a batch before the position moves |
| `StreamGate.AnnounceMicros` | internal/replication/replication.go:717-724 | and hears an announcement before it |
| `StreamGate.NotedSays` | internal/streamcache/streamcache.go:136-161 | a change noted changes exactly the answers for its entity from below it |
| `StreamGate.EvictedSays` | internal/streamcache/streamcache.go:373-388 | an eviction exactly those from below where it reached |
| `StreamGate.ForgotSays` | internal/streamcache/streamcache.go:283-290 | after a reset the answer goes by position alone, whatever was known |
| `StreamGate.ArmedSays` | internal/streamcache/streamcache.go:100-115 | after arming by the horizon and the entries |
| `StreamGate.StepCompleteIff` | cmd/gosync-worker/streamfeed.go:28-52 | one step of any kind leaves a cache knowing every change its position covers exactly when it meets its condition: resets lie above every change but those still to come, arming has every change above its horizon |
| `StreamGate.CompleteThroughoutIff` | internal/replication/replication.go:284-296 | in every run of commits, batches, announcements, evictions and reconnects, a cache was complete throughout since it was armed exactly when every step met that |
| `StreamGate.NoFalseNegative` | internal/streamcache/streamcache.go:163-189 | then "unchanged" means that nothing changed up to any token read from the position |
| `StreamGate.IncompleteDenies` | internal/streamcache/streamcache.go:163-189 | and a change it does not know is denied to whoever asks from just below it |
| `StreamGate.AnnouncedFineIff` | internal/streamcache/streamcache.go:283-290 | an announcement is harmless exactly when every change above it and the horizon has its own row still to come |
| `StreamGate.BareArmFineIff` | internal/store/streamgates.go:201-204 | arming with nothing is complete exactly when nothing was committed above the position |
| `StreamGate.LowerAnnouncementForgets` | internal/replication/replication.go:717-724 | for every two positions a run in which an announcement of the lower makes the cache deny a change at the higher |
| `StreamCache.Search` | internal/streamcache/streamcache.go:392-408 | the place of a position among ascending ones |
| `StreamCache.Cache.EntityHasChanged` | internal/streamcache/streamcache.go:124-161 | the change noted and the oldest positions evicted, only when there are too many |
| `StreamCache.Cache.Evict` | internal/streamcache/streamcache.go:373-388 | exactly the entries up to the new horizon go |
| `StreamCache.Cache.AllEntitiesChanged` | internal/streamcache/streamcache.go:283-290 | everything forgotten and the horizon raised |
| `StreamCache.Cache.HasEntityChanged` | internal/streamcache/streamcache.go:169-189 | true without an armed cache, below the horizon, or if the entity's last change is above the position |
| `StreamCache.Cache.EntitiesChanged` | internal/streamcache/streamcache.go:202-220 | exactly those entities in the order given, all of them from an empty cache |
| `StreamCache.Cache.HasAnyEntityChanged` | internal/streamcache/streamcache.go:226-242 | false only if the answer is no for every entity |
| `StreamCache.Cache.Prefill` | internal/streamcache/streamcache.go:100-115 | armed with the entries above the horizon, less evictions |
| `StreamCache.OnStreamAdvance` | cmd/gosync-worker/streamfeed.go:28-52 | a row changes exactly the answers for its subjects, one that names nobody resets |
| `StreamCache.CacheDict` | internal/store/cachedict.go:33-74 | every row of the table lies below the position returned or is no newer than its entity's entry |
| `StreamCache.PrefillIsFine` | internal/store/streamgates.go:188-199 | so a cache armed with it is complete |
| `Lru.Cache.Get` | internal/lru/lru.go:56-75 | the stored value, moved to the front; nothing when disarmed or without room |
| `Lru.Cache.Add` | internal/lru/lru.go:78-102 | the value at the front and the most recently used entries that fit behind it; a no-op when disarmed or without room |
| `Lru.Cache.Remove` | internal/lru/lru.go:105-115 | that key gone, the others in order |
| `Lru.Cache.SetArmed` | internal/lru/lru.go:122-133 | disarming empties |
| `Timeline.FilterAndVisible` | internal/handlers/filterapply.go:185-202 | exactly the passing events in order, each with its membership |
| `Timeline.PaginateBackwardsStream` | internal/store/sync.go:690-771 | the newest rows of the window up to the limit, less the rejected; more exactly when rows are left; next just below the page |
| `Timeline.Refill` | internal/handlers/filterapply.go:120-160 | exactly the passing events above the cursor; a timeline still short with rows left took five full pages |
| `Timeline.IncrementalTimeline` | internal/handlers/filterapply.go:57-176 | the timeline is the ascending end of what passes in the window, within the limit and aligned with its memberships; unless limited it is all of it, and everything above its prev_batch is in it, each exactly when rejected rows did not use up the newest part; it is limited exactly across a gap, or when the window held more and paging did not reach the bottom while short of the limit or found too much, so never when all its rows fit; and its prev_batch is where the window began unless it was trimmed or never paged |
| `Timeline.RejectedRowsLeaveHoles` | internal/store/incremental.go:112-121 | windows where they do |
| `StateBlock.CalculateState` | internal/handlers/incrementalsync.go:993-1038 | for each key the state at the end, else at the start, unless in the timeline, already sent or an alias; memberships at the start are sent again under lazy loading |
| `StateBlock.SyncStateBlock` | internal/handlers/sync.go:816-912 | the same with nothing sent before |
| `StateBlock.IsLinearTimeline` | internal/handlers/incrementalsync.go:953-968 | exactly when each event names only its predecessor |
| `StateBlock.LinearIffNoGap` | internal/handlers/incrementalsync.go:953-968 | on a linear history, exactly when nothing was skipped and something came before |
| `StateBlock.BlockReconstructs` | internal/handlers/incrementalsync.go:837-916 | for every split of every linear history, the client's state with block and timeline laid over it is the state at the end, aliases aside |
| `StateBlock.BlockSendsOnlyNew` | internal/handlers/incrementalsync.go:993-1038 | without lazy loading the block carries only events from after the last sync that the timeline does not leave in force |
| `StateBlock.LazyMembersReconstruct` | internal/handlers/incrementalsync.go:1012-1025 | under lazy loading a membership in force where the timeline starts is right afterwards for every client, whatever it was sent before |
| `StateBlock.IncrementalStateDelta` | internal/handlers/incrementalsync.go:837-916 | whichever branch is taken the block reconstructs the end state, and it is empty when nothing was skipped |
| `StateBlock.EmptyReconstructs` | internal/handlers/incrementalsync.go:842-862 | the shortcut's empty block reconstructs the same state |
| `StateBlock.InitialBlockReconstructs` | internal/handlers/sync.go:816-912 | the initial block does so for a client that holds nothing |
| `EventStream.RoomEventsForward` | internal/store/eventstream.go:21-68 | exactly each room's first rows of the window that were accepted, rejected ones counted |
| `EventStream.MembershipEvents` | internal/store/eventstream.go:80-116 | exactly the caller's own membership events of the window |
| `EventStream.EventStreamRoomEvents` | internal/handlers/events.go:415-473 | both queries merged in stream order, each event once, cut to the limit; the token is the last event's, or the end |
| `EventStream.NoneRejectedSpares` | internal/store/eventstream.go:21-68 | without rejected rows the per-room cap never reaches an event that belongs on the page |
| `EventStream.PageIsHeadIff` | internal/handlers/events.go:415-473 | the page is the head of the merged window exactly when the cap spares what belongs on it |
| `EventStream.PagesTile` | internal/handlers/events.go:316-328 | chained pages laid end to end are every event between the first token and the last, once each, in order |
| `EventStream.AcceptedRowsTile` | internal/handlers/events.go:316-328 | so with no rejected row every chain tiles |
| `EventStream.RejectedRowSkipsEvent` | internal/store/eventstream.go:56-59 | a table in which a rejected row costs an event its place and the token passes it |
| `ToDevice.Deleter.DeleteBetween` | internal/deviceinbox/deviceinbox.go:198-233 | one batch of the device's messages goes, and the rest lie above where to go on |
| `ToDevice.Deleter.DeleteUpTo` | internal/deviceinbox/deviceinbox.go:163-194 | terminates having removed exactly the device's messages in (0, upTo], counted; the cache turns away only calls that would delete nothing |
| `ToDevice.MessagesForDevice` | internal/store/todevice.go:31-74 | the first messages of the window in order, and where to resume |
| `ToDevice.CompleteIffCut` | internal/store/todevice.go:31-74 | a response carries everything up to its token exactly when its window is short of the limit or the limit falls between two positions |
| `ToDevice.DeletedWasDelivered` | internal/handlers/todevice.go:31-64 | in every run of such responses, messages arriving above every token handed out, one that is gone was carried by a response at or below a token the client presented |
| `ToDevice.UncleanResponseLoses` | internal/store/todevice.go:67-74 | presenting the token of any other response deletes a message it left out |
| `ToDevice.BurstIsUnclean` | internal/store/todevice.go:67-74 | such a response exists |
| `ToDevice.LateArrivalIsLost` | internal/handlers/sync.go:73-84 | any message that arrives at or below a token already handed out is deleted, carried by no response, when that token is presented |
| `ToDevice.LateArrivalExample` | internal/handlers/sync.go:73-84 | a run that hands out such a token |

## Left out

- HTTP, configuration, logging, metrics, Redis and PostgreSQL clients, schema and grants: plumbing.
- JSON parsing and rendering: replication rows arrive with their details, encodings are lists of pairs, events are records.
- The timestamps of lazy-member rows, and which members are due a refresh.
- Extensions, receipts, account data, presence, push rules, bundled aggregations and hero profiles: mostly formatting.
- List windows, sorting and room filters of sliding sync: a response's relevant rooms are an input.
- The time-based refresh that makes a state without changes worth storing: whether there is something to store is an input.
- History visibility, client filters and membership at an event are predicates of each row; filters that block everything give the empty timeline.
- The initial-sync timeline, newly joined rooms and archived rooms: they page topologically, which is not part of this model.
- Lazy-loading restrictions of the state block's inputs: the flag is modelled, reconstruction is for unrestricted states.
- The membership cache fed by member rows of the events stream: it is reset and armed like the others.
- Invalidation of user-keyed caches and purges on the caches stream: the room-keyed caches go through the same steps.
- Subscriber.Subscriber.Session: stops at an overflow at once; the source may still handle a message already delivered before its session ends, and clears the buffers afterwards.
- DerivedCache.GuardedIsCurrent: one direction only; an entry for a room still waiting in a batch may or may not be stale. What a reader can check, the horizon against the position, is exact.
- RequiredStateMemory.ExplicitMembersDelivered: leaves out the hero memberships the resolver adds whatever was asked for; a missed member who is a hero is sent after all.
- RequiredStateRuns.ConfigVouches: memberships are not in it; those on the lazy record are in `LazyRuns`, explicitly requested ones are per response.
- LazyRuns.RecordSoundIff: leaves out the hero memberships as well; a wanted hero recorded on the config's word is sent after all.
- A live room is idle when no event arrived in it: every change of its current state is taken to come with one.
- What `Connection` calls described is the range a response answered for; an invite, a knock or a zero timeline limit answers for its range without a timeline.
- Pinned tokens and the comparison tool that sends them.
