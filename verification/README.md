# Verified models of the messenger's core

A Dafny model of the parts of the messenger whose correctness depends on code rather than on plumbing,
with proofs of what those parts promise. Seven components are modelled.

- **Message list window** (`Flights`, `MessageDiff`, `MessageWindow`, `MessageReplay`, `MessageList`,
  `MessageRuns`, `MessageTimeline`). A bounded window over a chat timeline with incremental flight
  positions and emitted diffs. The class `MessageListData` updates its list and index in place; its
  methods are tied to functions that recompute the whole window. Over any run the mirror that applies
  the diffs shows the window in reverse, and over any timeline the window is a contiguous slice.
- **APQMLS combiner** (`ApqTree`, `ApqInfo`, `ApqGroup`, `ApqCommit`, `ApqJoin`, `ApqSecrets`,
  `ApqRuns`, `ApqSystem`). A traditional (T) and a post-quantum (PQ) MLS group run side by side. OpenMLS is taken
  at its RFC 9420 contract: which commits a group accepts and how secrets are joined, mixed, exported
  and derived are arbitrary functions passed in. What the combiner does around them is modelled step by
  step, and the theorems quantify over those functions.
- **Mark as read** (`MarkAsRead`). Any number of calls interleave on one watch cell; each call is a
  program counter.
- **Parsers and printers**: the payload scan of signed requests (`ProtoWire`, `ProtoEncoding`,
  `SignedRequest`), the Markdown builder (`Markdown`, `MarkdownEvents`, `MarkdownTrees`,
  `MarkdownReading`, `MarkdownGrammar`, `MarkdownAcceptance`, `MarkdownPanics`, `MarkdownTokens`,
  `MarkdownUnparse`, `MarkdownParser`) and the tagged map and union codecs (`TaggedCodec`). The scan is
  tied to a grammar of field lists and to an encoder written apart from it. The builder's methods are
  tied to reading functions over positions, those to derivations of a grammar, in both directions, and
  the finished trees to a flat scan of the events that builds nothing.
- **Stream combinator** (`StreamMerge`), a poll-level state machine over arbitrary inner streams.
- **Delivery-service storage** (`Storage`, `StorageWire`).
- **Padmé padding** (`Padme`) on 64-bit lengths.

`dafny verify dfyconfig.toml` checks everything. Where the code does not meet a natural reading of its
purpose, the model follows the code; a lemma gives the exact condition and another an input that fails:

- page diffs do not carry positions inside the page: `OlderExactIff`, `NewerExactIff`, `PageReplayCanBeInexact`;
- the read marker can move back, and a time can be marked twice: `MarkerMonotoneIff`, `MarkerCanMoveBack`,
  `NoTimeMarkedTwice`, `LateTieMarksAgain`;
- Update proposals are compared without their leaves, so an accepted pair can bring the rosters out of
  lockstep: `StepLockstepIff`, `SwappedUpdatesBreakLockstep`;
- nothing stops a T-only commit from dropping the component, the members or a member's credential:
  `StepLinkedIff` with `TOnlyCanUnlink`; `StepLockstepIff`, `TOnlyReplacesIff` and `SelfUpdateMeetsIff`
  with `TOnlyAddsBreak`, `TOnlyRemovesBreak` and `TOnlyCanBreakLockstep`;
- a failed rejoin deletes a PQ group that was stored before: `RollbackRestoresIff`, `FailedRejoinLosesGroup`;
- an implicit paragraph of empty texts is indexed out of range: `ImplicitPanicsIff`, `MessagePanicsIff`,
  `EmptyItemPanics`;
- payloads that encode to nothing read back as missing: `ReadAfterWriteIff`, `TersePayloadReadsAsMissing`;
- the longest lengths wrap around: `PadsUpwardsIff`, `FitsIff`.

Inputs that stand for code outside the model: the store's query results (their ordering and cursor
semantics are modelled, the database is not), the MLS layer and its cryptography, the Markdown
tokenizer's events and the URL matches, the inner streams' behaviours, payload codecs, and the merge of
the inner protobuf message. The wire format is that of the Protocol Buffers encoding; the decoder
library itself is not part of the repository and is modelled from that format, with its recursion limit
of 100.

## Model

| member | source | states |
|---|---|---|
| Flights.CalculateReadsLinks | applogic/src/api/types.rs:639-668 | the case analysis over the two neighbours is the same as asking, on each side, whether the pair is linked and the divider does not separate it |
| Flights.NeighboursAgree | applogic/src/api/types.rs:639-685 | in a positioned list, a message continues into the next one exactly when the next one does not open a flight |
| Flights.PositionsPartition | applogic/src/api/types.rs:619-685 | positions encode a partition: two messages have the same flight number exactly when every neighbouring pair between them is linked |
| Flights.FlightsAreRuns | applogic/src/api/types.rs:619-685 | two messages are in one flight exactly when every neighbouring pair between them has one sender, less than a minute between them and no divider |
| Flights.FlightHasOneSender | applogic/src/api/types.rs:671-685 | the messages of a flight all have the same sender |
| Flights.PositionedIgnoresPositions | applogic/src/api/message_list_cubit.rs:133-167 | recomputing positions depends on the messages only, not on the positions stored before |
| Flights.BareOfPositioned | applogic/src/api/message_list_cubit.rs:133-140 | positioning changes nothing but positions |
| MessageDiff.ReplayPatches | applogic/src/api/message_list_cubit.rs:184-203 | replaying the patches for a set of indices overwrites exactly those cells of the newest-first mirror |
| MessageDiff.ReplayTransition | applogic/src/api/message_list_cubit.rs:84-111 | splices followed by patches take a mirror to the overlay of the spliced list with the patched cells |
| MessageWindow.IndexOfIsLast | applogic/src/api/message_list_cubit.rs:177-182 | every loaded id is indexed, under the last place it occurs |
| MessageWindow.OlderKeepsConsistent | applogic/src/api/message_list_cubit.rs:276-345 | loading older messages keeps the window fully positioned, bounded and its divider in range |
| MessageWindow.NewerKeepsConsistent | applogic/src/api/message_list_cubit.rs:346-422 | the same for loading newer messages |
| MessageWindow.ClearKeepsConsistent | applogic/src/api/message_list_cubit.rs:434-456 | the same for clearing the unread divider |
| MessageWindow.UpdateKeepsConsistent | applogic/src/api/message_list_cubit.rs:458-487 | the same for an edit in place |
| MessageWindow.RemoveKeepsConsistent | applogic/src/api/message_list_cubit.rs:489-529 | the same for a removal, with the divider moved |
| MessageWindow.OlderKeepsUnread | applogic/src/api/message_list_cubit.rs:276-345 | after loading older messages the window is the page and the old messages cut to the oldest 640; the divider stays exactly if its message stays, and then the unread messages are the same ones without those cut off |
| MessageWindow.NewerKeepsUnread | applogic/src/api/message_list_cubit.rs:346-422 | after loading newer messages the window is the old messages and the page cut to the newest 640; the divider stays exactly if its message stays, and then everything from it on is unread |
| MessageWindow.RemovalKeepsUnread | applogic/src/api/message_list_cubit.rs:489-529 | a removal takes out that one message; the divider goes exactly if it stood on the last message and that was removed, and otherwise the unread messages are the same ones without the removed one |
| MessageWindow.EditKeepsUnread | applogic/src/api/message_list_cubit.rs:458-487 | an edit replaces that one message and leaves the divider |
| MessageWindow.ClearKeepsMessages | applogic/src/api/message_list_cubit.rs:434-456 | clearing the divider keeps the messages and leaves nothing unread |
| MessageReplay.OlderExactIff | applogic/src/api/message_list_cubit.rs:276-345 | replaying an older page's diff reproduces positions too exactly when no two messages inside the page are linked |
| MessageReplay.NewerExactIff | applogic/src/api/message_list_cubit.rs:346-422 | the same for a newer page, up to the messages that are patched or evicted |
| MessageReplay.PageReplayCanBeInexact | applogic/src/api/message_list_cubit.rs:289-293 | a non-empty window and a page loaded before it whose replay shows wrong positions |
| MessageReplay.OlderModuloPosition | applogic/src/api/message_list_cubit.rs:276-345 | for any page, with or without eviction, the replayed mirror equals the new window up to positions |
| MessageReplay.NewerModuloPosition | applogic/src/api/message_list_cubit.rs:346-422 | the same for newer pages |
| MessageReplay.ClearExact | applogic/src/api/message_list_cubit.rs:434-456 | replaying the divider's diff gives the new window exactly, positions included |
| MessageReplay.UpdateExact | applogic/src/api/message_list_cubit.rs:458-487 | the same for an edit |
| MessageReplay.RemoveExact | applogic/src/api/message_list_cubit.rs:489-529 | the same for a removal |
| MessageList.RecomputeRange | applogic/src/api/message_list_cubit.rs:142-167 | the loop sets every cell of the range to its position in the whole list and leaves the others alone |
| MessageList.ComputeFlightPositions | applogic/src/api/message_list_cubit.rs:133-140 | the full recompute gives the positioned list |
| MessageList.PushPatchChanges | applogic/src/api/message_list_cubit.rs:184-203 | sorted, deduplicated and clipped patch changes at newest-first indices, appended to the changes so far |
| MessageList.RebuildIndex | applogic/src/api/message_list_cubit.rs:177-182 | the rebuilt index is the index of the list |
| MessageList.JoinOlder | applogic/src/api/message_list_cubit.rs:276-330 | splicing a page in front, recomputing one to three cells and evicting gives the fully repositioned cut list, and the patch set is the stated one |
| MessageList.JoinNewer | applogic/src/api/message_list_cubit.rs:346-405 | the same for a page behind, with indices shifted by the eviction |
| MessageList.PushOlderSplices | applogic/src/api/message_list_cubit.rs:331-342 | the change list built for an older page: the page behind the oldest shown message, then the newest dropped |
| MessageList.PushNewerSplices | applogic/src/api/message_list_cubit.rs:408-419 | the change list built for a newer page: the page in front, then the oldest dropped |
| MessageList.MessageListData.constructor | applogic/src/api/message_list_cubit.rs:206-225 | an empty, consistent window |
| MessageList.MessageListData.ApplyMessages | applogic/src/api/message_list_cubit.rs:227-432 | the new list, index and state are the specified window for the direction, with the specified transition; validity is kept |
| MessageList.MessageListData.ReplacePage | applogic/src/api/message_list_cubit.rs:240-275 | the window is the fully positioned page with the given flags, and the diff is one reload |
| MessageList.MessageListData.PrependPage | applogic/src/api/message_list_cubit.rs:276-345 | the incrementally updated window equals the full recompute of page, window and eviction, and emits the specified diff |
| MessageList.MessageListData.AppendPage | applogic/src/api/message_list_cubit.rs:346-422 | the same for newer pages |
| MessageList.MessageListData.ClearFirstUnread | applogic/src/api/message_list_cubit.rs:434-456 | the window repositioned without divider, with its diff, or nothing if there was none |
| MessageList.MessageListData.UpdateMessage | applogic/src/api/message_list_cubit.rs:458-487 | the window repositioned with the new version in place, or nothing if unknown or unchanged |
| MessageList.MessageListData.RemoveMessage | applogic/src/api/message_list_cubit.rs:489-529 | the window repositioned without the message and with a rebuilt index, or nothing exactly if it is not loaded; only that message is lost, from the list and from the unread ones |
| MessageRuns.StepReplay | applogic/src/api/message_list_cubit.rs:84-111 | every diff applies to every mirror of the right length, and gives the stated list |
| MessageRuns.StepExactIff | applogic/src/api/message_list_cubit.rs:227-529 | one operation's diff reproduces the window exactly if and only if it carries the page's positions |
| MessageRuns.MirrorFollows | applogic/src/api/message_list_cubit.rs:227-529 | over any run of operations every change applies and the mirror is the window in reverse, up to positions |
| MessageRuns.MirrorFollowsExactly | applogic/src/api/message_list_cubit.rs:227-529 | over any run whose page diffs carry all positions, the mirror is the window in reverse, positions included |
| MessageTimeline.CursorSplits | coreclient/src/chats/messages/persistence.rs:315-416 | the rows before and after a message's cursor are the two sides of the timeline |
| MessageTimeline.AnyCursorSplits | coreclient/src/chats/messages/persistence.rs:469-530 | any cursor, in the timeline or not, splits it in two |
| MessageTimeline.StepStaysContiguous | applogic/src/api/message_list_cubit.rs:718-1055 | every load or jump takes a contiguous window with truthful flags to another |
| MessageTimeline.WindowStaysContiguous | applogic/src/api/message_list_cubit.rs:718-1055 | over any timeline and any steps after the first load the window is a contiguous slice, its flags say exactly whether messages exist on each side, and it is at the bottom exactly when nothing is newer |
| MessageTimeline.JumpShowsTarget | applogic/src/api/message_list_cubit.rs:984-1055 | a jump to a loaded message keeps the messages, a jump to one the store does not know changes nothing, and any other ends in the page up to and with the target and the page after it; the target is shown |
| MessageTimeline.OpenShows | applogic/src/api/message_list_cubit.rs:718-830 | opening at an unread message shows it; opening without one and jumping to the bottom show the newest message |
| ApqTree.RemoveAllIsBlankAll | apqmls/src/processing.rs:243-261 | removals give the same tree in any order and with any repetition |
| ApqTree.ApplyKeeps | apqmls/src/processing.rs:252-310 | trees in lockstep stay in lockstep under commits alike in sender, Updates, removed set, Adds and path |
| ApqTree.ApplyKeepsIff | apqmls/src/processing.rs:243-310 | commits that compare equal, with Updates from members, keep trees in lockstep exactly when, on every leaf neither removed nor on the path, the updated leaves match |
| ApqTree.ApplyIsCanonical | apqmls/src/processing.rs:252-310 | every commit takes a full tree without an empty right half to another |
| ApqTree.LockstepIsMatching | apqmls/src/lib.rs:179-186 | for such trees, lockstep is the same as matching members on every leaf index |
| ApqTree.CommitSeats | apqmls/src/processing.rs:252-310 | a commit leaves on every leaf what its proposals and the leaves before it tell: newcomers fill the free leaves from the left, everyone else stays with their Updates, the committer gets its path |
| ApqTree.MembersKeepTheirLeaf | apqmls/src/processing.rs:252-310 | a member that is not removed stays on its leaf, with its own node unless it is updated or commits |
| ApqTree.AddedFindTheirLeaf | apqmls/src/welcome.rs:46-77 | an added member stands on the leaf its Add was placed on, whatever else the commit carries |
| ApqTree.JoinerFindsItsLeaf | apqmls/src/external_commit_builder.rs:165-181 | an external joiner stands on the least leaf free after its removals |
| ApqInfo.ComputeAppDataUpdates | apqmls/src/processing.rs:582-602 | the loop gathers the proposals in order and returns what the updater reports, which may be nothing even after proposals; applied to the dictionary it gives the dictionary after all proposals |
| ApqInfo.ResolveUntouched | apqmls/src/processing.rs:582-602 | a component no proposal names keeps its data |
| ApqGroup.PskStore.Store | apqmls/src/psk.rs:75-87 | delete-then-write leaves exactly the new value under the key and all other keys alone |
| ApqGroup.PskStore.DeriveAndStore | apqmls/src/psk.rs:40-73 | key name and value are derived under two labels from the secret that the PQ group's secret exports for the component, and the store maps one to the other |
| ApqGroup.ValidateIsLinking | apqmls/src/processing.rs:495-547 | validation passes exactly on staged pairs that leave both legs with the same component, naming both groups, their suites and their new epochs |
| ApqGroup.ProposalsAcceptedIff | apqmls/src/processing.rs:335-415 | a pair of proposals is accepted exactly when senders, kinds, removed leaves and users are the same in both; the key store is left alone |
| ApqGroup.MixedPairsAreRefused | apqmls/src/processing.rs:402-405 | a proposal and a commit never make a pair |
| ApqGroup.ApqMlsGroup.constructor | apqmls/src/lib.rs:125-127 | a pair of legs |
| ApqGroup.ApqMlsGroup.ProcessMessage | apqmls/src/processing.rs:335-415 | result and key store of processing a message pair, PQ first, on every outcome |
| ApqGroup.ApqMlsGroup.MergeStagedCommit | apqmls/src/merging.rs:26-40 | both legs move to the staged groups and lose their pending commits |
| ApqGroup.ApqMlsGroup.MergePendingCommit | apqmls/src/merging.rs:15-22 | each leg moves to its own pending commit if it has one |
| ApqGroup.ApqMlsGroup.ClearPendingCommits | apqmls/src/merging.rs:42-49 | pending commits go, groups stay |
| ApqCommit.FinalizeCommit | apqmls/src/commit_builder.rs:258-338 | bundle, pending commits and key store after a build, and what a refused T commit leaves behind |
| ApqCommit.LoadAgrees | apqmls/src/psk.rs:75-87 | two stores that agree on the other named keys load the same values once both hold the combiner's key |
| ApqCommit.RebuiltDictionary | apqmls/src/commit_builder.rs:288-306 | the dictionary rebuilt from the proposal is the one the committer set |
| ApqCommit.PeerReads | apqmls/src/processing.rs:350-394 | a remaining peer stages both legs exactly as the committer did, secrets included, whatever its store held before |
| ApqCommit.BuiltIsFreshlyLinked | apqmls/src/commit_builder.rs:277-337 | a build from linked legs leaves legs whose component is current in both epochs |
| ApqCommit.BuiltIsAcceptedIff | apqmls/src/processing.rs:335-415 | a peer accepts a built pair, and stages the committer's groups, exactly when senders and contents compare equal; its store gains the key either way |
| ApqCommit.RemovedIsToldIff | apqmls/src/processing.rs:361-364 | a receiver the commit removes is told so exactly when senders and contents compare equal; its key store is unchanged either way |
| ApqCommit.FinalizedIsAcceptedIff | apqmls/src/commit_builder.rs:258-338 | a member's bundle is accepted by every remaining member in the same state exactly when key packages and new leaves belong together |
| ApqCommit.FinalizedRemovalIsToldIff | apqmls/src/commit_builder.rs:258-338 | a member the bundle removes is told so exactly when key packages and new leaves belong together, and keeps its key store |
| ApqCommit.KeptCredentialsAreEquivalent | apqmls/src/commit_builder.rs:121-154 | without replacement credentials the self-update never causes a mismatch |
| ApqCommit.CommitterLeafIs | apqmls/src/commit_builder.rs:258-338 | after a bundle the committer's leaf in each leg is the replacement meant for that leg, or the old one without a replacement |
| ApqCommit.RemovedLeafIs | apqmls/src/commit_builder.rs:258-338 | a removed leaf is empty in both legs, or holds the added member whose turn the free leaves below it give |
| ApqCommit.PathIffNeeded | apqmls/src/commit_builder.rs:258-338 | both legs carry an update path exactly when someone is removed or the committer renews itself |
| ApqJoin.NewFromWelcome | apqmls/src/welcome.rs:46-77 | groups and key store after joining, and after each way of failing |
| ApqJoin.JoinerAgrees | apqmls/src/welcome.rs:46-77 | whatever its store held, a joiner derives the committer's key and both of the committer's groups |
| ApqJoin.GroupStore.Put | apqmls/src/external_commit_builder.rs:278-282 | a finalized leg is stored under its id |
| ApqJoin.GroupStore.Delete | apqmls/src/external_commit_builder.rs:226-229 | deleting removes that id only |
| ApqJoin.BuildExternal | apqmls/src/external_commit_builder.rs:108-236 | stored groups, key store and bundle after an external join with any removal pairs, and what a failed T leg leaves behind |
| ApqJoin.RollbackRestoresIff | apqmls/src/external_commit_builder.rs:224-230 | for every build whose T leg is refused, the stored groups after it are those before it exactly when no PQ group of that id was stored |
| ApqJoin.EarlyRefusalStoresNothing | apqmls/src/external_commit_builder.rs:146-181 | a build refused before the T leg leaves the stored groups alone |
| ApqJoin.FailedRejoinLosesGroup | apqmls/src/external_commit_builder.rs:224-230 | a member with both groups stored whose rejoin names a key it does not hold ends without its PQ group |
| ApqJoin.ExternalIsAcceptedIff | apqmls/src/processing.rs:335-415 | members accept an external join, and stage the joiner's groups, exactly when its two credentials belong together and its proposal pairs remove the same leaves |
| ApqJoin.ExternalJoinIsLinked | apqmls/src/external_commit_builder.rs:146-155 | a joiner starts with linked groups |
| ApqJoin.SuccessStoresBoth | apqmls/src/external_commit_builder.rs:230-282 | a successful external join stores both new groups, one epoch on, and touches no other group |
| ApqSecrets.PskIs | apqmls/src/psk.rs:40-73 | the combiner's key is named and valued by two derivations of the exported PQ secret |
| ApqSecrets.CommitterMixes | apqmls/src/commit_builder.rs:277-337 | a committer's new T secret mixes in the other named keys and, last, the value derived from its new PQ secret; without others that value alone |
| ApqSecrets.ExternalMixes | apqmls/src/external_commit_builder.rs:183-222 | the same for an external joiner, whose T commit names that key first |
| ApqSecrets.PeerMixes | apqmls/src/processing.rs:365-394 | a receiver's staged T secret mixes in, for the key that the PQ secret it has just staged names, the value derived from that PQ secret, and for all other keys what its store holds |
| ApqSecrets.JoinerMixes | apqmls/src/welcome.rs:46-77 | the same for a joiner, on the joiner secret of its Welcome |
| ApqSecrets.TSecretFixesPqSecret | apqmls/src/commit_builder.rs:277-337 | without collisions in the key schedule, commits with different new PQ secrets have different new T secrets, whatever groups they come from |
| ApqSecrets.NameIsNotValue | apqmls/src/psk.rs:40-73 | the name shown in the T commit is not the key |
| ApqRuns.CombinedLinks | apqmls/src/processing.rs:495-547 | any accepted pair leaves the legs linked with both epochs current |
| ApqRuns.StepLinkedIff | apqmls/src/processing.rs:495-547 | linked legs stay linked exactly over accepted pairs and over T-only commits after which the component reads the same |
| ApqRuns.StepLockstepIff | apqmls/src/processing.rs:243-310 | rosters in lockstep stay so exactly over accepted pairs whose Updates meet, and over T-only commits that seat on every leaf someone who matches the PQ leaf, as told by the proposals and the leaves before |
| ApqRuns.SelfUpdateMeetsIff | apqmls/src/merging.rs:12-40 | a T-only self-update keeps lockstep exactly when the new leaf still belongs to the PQ leaf |
| ApqRuns.TOnlyReplacesIff | apqmls/src/merging.rs:12-40 | a T-only commit without Updates keeps lockstep exactly when its newcomers replace the removed members one by one, in leaf order, by the same users, and its path is the same user's |
| ApqRuns.TOnlyAddsBreak | apqmls/src/merging.rs:12-40 | a T-only commit with newcomers and no removals always breaks lockstep |
| ApqRuns.TOnlyRemovesBreak | apqmls/src/merging.rs:12-40 | a T-only commit that removes a member and brings no newcomer always breaks lockstep |
| ApqRuns.RunStaysLinkedIff | apqmls/src/merging.rs:12-40 | over every run the code lets through, the legs are linked in every state exactly when every T-only commit keeps the component |
| ApqRuns.RunStaysInLockstepIff | apqmls/src/merging.rs:12-40 | the same for lockstep and the steps that meet |
| ApqRuns.CreatedGroupStaysLinkedIff | apqmls/src/group_builder.rs:124-163 | both equivalences from group creation on |
| ApqRuns.CombinedIsFresh | apqmls/src/processing.rs:495-547 | whatever came before, right after a combined commit the component is current in both epochs |
| ApqRuns.VerifyingKeysBelongTogether | apqmls/src/lib.rs:179-186 | under lockstep a combined key exists exactly where either leg has a member; it holds the T leaf's and the PQ leaf's key, in this order, of the same user |
| ApqRuns.SwappedUpdatesBreakLockstep | apqmls/src/processing.rs:243-275 | from linked legs in lockstep, a pair whose Updates come from different members is accepted and breaks lockstep |
| ApqRuns.TOnlyCanUnlink | apqmls/src/processing.rs:495-547 | a T-only commit that drops the component unlinks the legs |
| ApqRuns.TOnlyCanBreakLockstep | apqmls/src/processing.rs:243-275 | a T-only self-update to another credential breaks lockstep |
| ApqSystem.MemberFollows | apqmls/src/processing.rs:335-415 | every remaining member ends a combined round with the committer's groups, on its old leaf |
| ApqSystem.JoinerFollows | apqmls/src/welcome.rs:46-77 | every joiner ends the round with the committer's groups |
| ApqSystem.CombinedKeepsAgreement | apqmls/src/commit_builder.rs:258-338 | after a combined round all members, joiners included, hold the same two groups and sit apart, each finding its own node on the same leaf of both legs |
| ApqSystem.TOnlyKeepsAgreement | apqmls/src/processing.rs:335-415 | the same after a T-only round |
| ApqSystem.ExternalKeepsAgreement | apqmls/src/external_commit_builder.rs:108-236 | the same after an external join, newcomer included |
| ApqSystem.RunKeepsAgreement | apqmls/src/merging.rs:12-40 | after any number of combined, T-only and external rounds all members hold the same two groups, secrets included, linked and in lockstep, each with its own node on its own leaf |
| ApqSystem.CreatedGroupKeepsAgreement | apqmls/src/group_builder.rs:124-163 | a created group starts in agreement, and so stays in agreement over any such run |
| MarkAsRead.WatchCell.constructor | applogic/src/mark_as_read.rs:215-227 | the cell starts not loaded |
| MarkAsRead.WatchCell.TrySchedule | applogic/src/mark_as_read.rs:117-150 | the decision, and the cell and its version after it |
| MarkAsRead.WatchCell.Overwrite | applogic/src/mark_as_read.rs:152-172 | the resolved tie is written unconditionally |
| MarkAsRead.WatchCell.Confirm | applogic/src/mark_as_read.rs:180-202 | a schedule becomes a mark only if it is still this call's |
| MarkAsRead.WatchCell.Reload | applogic/src/api/chat_details_cubit.rs:699-713 | a reload never replaces a schedule |
| MarkAsRead.StepBalances | applogic/src/mark_as_read.rs:106-213 | every step conserves, per message, confirmed marks against marks served and in flight |
| MarkAsRead.RunKeepsInv | applogic/src/mark_as_read.rs:106-213 | in every reachable state a schedule's last writer is waiting with no unseen change, and marks are conserved |
| MarkAsRead.NoLostMark | applogic/src/mark_as_read.rs:106-213 | once all calls have returned, nothing is left scheduled and the service was called exactly once per schedule that became a mark |
| MarkAsRead.WriterConfirms | applogic/src/mark_as_read.rs:174-202 | the writer of a schedule, when its wait ends, finds it still its own |
| MarkAsRead.StepMonotoneIff | applogic/src/mark_as_read.rs:129-172 | a step moves the marker back exactly when it overwrites with a call that was overtaken |
| MarkAsRead.MarkerMonotoneIff | applogic/src/mark_as_read.rs:106-213 | over any run without reloads the marker never moves back exactly when no overtaken call overwrites |
| MarkAsRead.FirstWritesIff | applogic/src/mark_as_read.rs:117-156 | a call's first look schedules exactly if the chat is not loaded or its marker is earlier than the call's time; otherwise nothing changes, and only an equal time scheduled for another message is looked into |
| MarkAsRead.NoTimeMarkedTwice | applogic/src/mark_as_read.rs:117-197 | over any run without reloads in which ties are resolved only while their time can still be marked, the times marked as read strictly increase and are later than what was read before |
| MarkAsRead.LateTieMarksAgain | applogic/src/mark_as_read.rs:158-197 | a tie resolved after its time was read marks that time again, in every such state |
| MarkAsRead.LatestIsReadAtRest | applogic/src/mark_as_read.rs:106-213 | once all calls have returned and none was overtaken, the chat is marked as read at exactly the latest time any call asked for |
| MarkAsRead.MarkerCanMoveBack | applogic/src/mark_as_read.rs:129-172 | three interleaved calls after which the marker has moved back |
| ProtoWire.KeyBits | protos/src/signed.rs:126 | a key's wire type and tag are its low three bits and the rest |
| ProtoWire.VarintFound | protos/src/signed.rs:126-143 | a varint of any encoded length is read with its own end and value wherever it stands |
| ProtoWire.SkipAccepts | protos/src/signed.rs:130 | every well-formed value, groups nested to the limit included, is skipped to its exact end |
| ProtoWire.GroupAccepts | protos/src/signed.rs:130 | fields followed by their own end key close the group |
| ProtoWire.SkipReads | protos/src/signed.rs:130 | only bytes that are the print of a well-formed value are skipped |
| ProtoWire.GroupReads | protos/src/signed.rs:130 | a skipped group is the print of a field list and its end key |
| SignedRequest.ExtractField | protos/src/signed.rs:122-150 | the cursor loop computes the specified scan; it succeeds exactly on well-formed buffers carrying the field at most once, with all they carry, and on anything the encoder writes returns what was encoded under the tag |
| SignedRequest.ExtractPrinted | protos/src/signed.rs:122-150 | on a well-formed buffer the result is nothing, the one content, or the duplicate error, as the tag occurs zero, one or more times |
| SignedRequest.ExtractExact | protos/src/signed.rs:116-150 | extraction succeeds exactly on well-formed buffers carrying the field at most once, and returns all they carry under the tag |
| ProtoEncoding.EncodedIsVarint | protos/src/signed.rs:122-150 | every number below 2^64, written in base-128 digits by remainder and quotient, is a varint |
| ProtoEncoding.EncodedValue | protos/src/signed.rs:122-150 | and decodes to that number |
| ProtoEncoding.VarintIsSum | protos/src/signed.rs:122-150 | the value of a varint is the sum of its low seven bits times the powers of 128 |
| ProtoEncoding.VarintBelowWord | protos/src/signed.rs:122-150 | no varint is 2^64 or more |
| ProtoEncoding.KeysAre | protos/src/signed.rs:122-150 | a number is a field key exactly when it is below 2^32, its remainder by eight is a wire type and its quotient a tag other than 0 |
| SignedRequest.ExtractEncoded | protos/src/signed.rs:122-150 | from an encoded list of numbers, fixed-width values, contents and groups within the nesting limit, extraction returns nothing, the one payload or the duplicate error, as the tag was encoded zero, one or more times |
| SignedRequest.ExtractsThePayload | protos/src/signed.rs:116-150 | a payload of any length among any other fields is returned byte for byte, without key and length |
| SignedRequest.NestingIsAcceptedIff | protos/src/signed.rs:122-150 | nested groups are skipped exactly up to a hundred levels |
| SignedRequest.SignedRequest.constructor | protos/src/signed.rs:29-33 | nothing captured |
| SignedRequest.SignedRequest.New | protos/src/signed.rs:48-53 | the supplied payload counts as captured |
| SignedRequest.SignedRequest.Merge | protos/src/signed.rs:88-100 | captured payload, message and error after a merge on every outcome; the payload stays captured when the inner merge fails |
| SignedRequest.SignedRequest.Clear | protos/src/signed.rs:102-105 | nothing captured any more |
| SignedRequest.SignedRequest.UnsignedPayload | protos/src/signed.rs:164-173 | the captured bytes, or an error exactly when none were captured |
| SignedRequest.MergesActAsOne | protos/src/signed.rs:88-100 | merging well-formed buffers one by one captures, or fails, as one scan of their concatenation |
| SignedRequest.HeldPayloadIsTheOnlyOne | protos/src/signed.rs:88-105 | after any run of successful merges the captured bytes are the only payload in everything merged |
| SignedRequest.DecoderReadsCaptured | protos/src/signed.rs:86-99 | wherever extraction succeeds, a decoder that keeps the last occurrence and one that merges all occurrences both read exactly the captured bytes |
| Markdown.CollectLinks | applogic/src/api/markdown.rs:763-804 | the loop appends the specified split |
| Markdown.SplitTiles | applogic/src/api/markdown.rs:763-804 | the pieces' texts concatenate to the input, their ranges meet without gap or overlap, and they cover the event's range when it spans as many bytes as the text |
| Markdown.SplitSpans | applogic/src/api/markdown.rs:763-804 | then every piece spans as many bytes as it shows |
| Markdown.MatchesAreLinks | applogic/src/api/markdown.rs:763-804 | the links of a split are exactly the matches, in order, each with the matched text as its target and as its text and with the range of the match |
| MarkdownTrees.NestedB | applogic/src/api/markdown.rs:176-412 | the events of every derivation of a block are properly nested |
| MarkdownTrees.NestedIs | applogic/src/api/markdown.rs:414-612 | so are those of every run of inline elements |
| MarkdownTrees.BlocksFit | applogic/src/api/markdown.rs:183-189 | the depth limit bounds the height of the tree |
| MarkdownGrammar.InlinesRead | applogic/src/api/markdown.rs:414-612 | whatever a run of inline elements accepts has a derivation with these events and this tree |
| MarkdownGrammar.RunAccepts | applogic/src/api/markdown.rs:414-612 | every derivation of inline elements, wherever it stands in front of an ending event, is accepted with its own tree |
| MarkdownAcceptance.ProseIsEmptyIff | applogic/src/api/markdown.rs:514-531 | inline elements come to nothing exactly when they were read from empty texts only |
| MarkdownAcceptance.BlockReads | applogic/src/api/markdown.rs:176-412 | whatever is accepted as a block has a derivation with these events and this tree |
| MarkdownAcceptance.BlockAccepts | applogic/src/api/markdown.rs:176-412 | every derivation of a block within the depth limit is accepted with its own tree |
| MarkdownAcceptance.ItemsRead | applogic/src/api/markdown.rs:614-651 | the same as for blocks, for list items and table cells |
| MarkdownAcceptance.ItemsAccept | applogic/src/api/markdown.rs:614-651 | the converse for list items and table cells |
| MarkdownAcceptance.RowsRead | applogic/src/api/markdown.rs:653-718 | whatever table rows are accepted have a derivation |
| MarkdownAcceptance.RowsAccept | applogic/src/api/markdown.rs:653-718 | every derivation of table rows is accepted |
| MarkdownAcceptance.MessageAcceptedIff | applogic/src/api/markdown.rs:152-173 | a message is accepted with a tree exactly when some derivation within the depth limit has its events and that tree |
| MarkdownAcceptance.Unambiguous | applogic/src/api/markdown.rs:152-173 | no event stream can be read in two ways that come to different trees |
| MarkdownAcceptance.AcceptedIsNested | applogic/src/api/markdown.rs:152-173 | an accepted stream is properly nested and its tree at most two levels taller than the limit |
| MarkdownUnparse.UnparseIsScan | applogic/src/api/markdown.rs:152-173 | the tree of an accepted message, written out as tokens, is what one flat pass over its events writes: every tag at its start and end, link and image targets, list numbers, check marks, code, rules and texts with their links, in order; image descriptions are left out |
| MarkdownUnparse.InlinesRun | applogic/src/api/markdown.rs:414-612 | the same for any run of inline elements, in and outside of images |
| MarkdownUnparse.BlockRange | applogic/src/api/markdown.rs:176-412 | a block in tags ranges from its first event to its last |
| MarkdownUnparse.ImplicitRange | applogic/src/api/markdown.rs:332-350 | a paragraph without tags ranges from its first element to its last |
| MarkdownUnparse.ChompIs | applogic/src/api/markdown.rs:287-308 | a line of code keeps everything but at most one newline, its last byte |
| MarkdownPanics.ImplicitPanicsIff | applogic/src/api/markdown.rs:332-350 | an implicit paragraph indexes out of range exactly when the depth limit leaves room and only empty texts stand up to the event that ends it |
| MarkdownPanics.MessagePanicsIff | applogic/src/api/markdown.rs:152-173 | a message indexes out of range exactly when some path of opened containers and complete blocks leads to only empty texts; the link search plays no part |
| MarkdownPanics.NonEmptyTextsNeverPanic | applogic/src/api/markdown.rs:344-349 | without empty texts nothing is indexed out of range |
| MarkdownPanics.EmptyItemPanics | applogic/src/api/markdown.rs:344-349 | a list with one item that is an empty text indexes out of range |
| MarkdownParser.JoinTexts | applogic/src/api/markdown.rs:514-531 | consecutive text events are joined up to the first other event |
| MarkdownParser.ParseText | applogic/src/api/markdown.rs:514-531 | the joined text is split at its links and the iterator stands behind it |
| MarkdownParser.ParseInline | applogic/src/api/markdown.rs:430-611 | one turn of the loop: its value, its error and how far it moves the iterator |
| MarkdownParser.ParseInlines | applogic/src/api/markdown.rs:414-612 | value, error and iterator of reading a run are those of the reading function |
| MarkdownParser.ParseProse | applogic/src/api/markdown.rs:190-234 | the same for paragraphs and headings, underlined headings becoming paragraphs |
| MarkdownParser.ParseImplicit | applogic/src/api/markdown.rs:332-350 | the same for an implicit paragraph, and out of range exactly under the condition seen in the events before the call |
| MarkdownParser.ParseRaw | applogic/src/api/markdown.rs:287-379 | the same for code and HTML blocks, which consume text only, up to their own end tag |
| MarkdownParser.ParseUntil | applogic/src/api/markdown.rs:268-280 | the same for blocks up to the end tag of their container |
| MarkdownParser.ParseQuote | applogic/src/api/markdown.rs:268-286 | the same for a quote |
| MarkdownParser.ParseItems | applogic/src/api/markdown.rs:614-651 | the same for list items and, in a row, table cells |
| MarkdownParser.ParseList | applogic/src/api/markdown.rs:235-252 | the same for a list |
| MarkdownParser.ParseRow | applogic/src/api/markdown.rs:675-704 | the same for a table head or row |
| MarkdownParser.ParseRows | applogic/src/api/markdown.rs:687-712 | the same for the rows of a table |
| MarkdownParser.ParseTable | applogic/src/api/markdown.rs:653-718 | the same for a table |
| MarkdownParser.ParseBlock | applogic/src/api/markdown.rs:176-412 | the same for any block |
| MarkdownParser.ParseMessage | applogic/src/api/markdown.rs:152-173 | accepts exactly the streams that have a derivation within the depth limit, with exactly its tree, nested and within the height bound; indexes out of range exactly when a path leads to only empty texts; the tree, written out as tokens, is the flat scan of the events |
| TaggedCodec.Written | macros/src/lib.rs:150-167 | the type-specific test is true exactly when the value differs from the default |
| TaggedCodec.SerializeMap | macros/src/lib.rs:367-407 | the entries are those of the non-default fields in order, and the announced length is their number |
| TaggedCodec.DeserializeMap | macros/src/lib.rs:457-579 | accepted exactly when keys are 32-bit and distinct and known payloads decode; the result has each field's value or default |
| TaggedCodec.VersionsUnderstandEachOther | macros/src/lib.rs:414-420 | a reader of any compatible version gets the writer's value for each field the writer had and the default for each it had not |
| TaggedCodec.RoundTrip | macros/src/lib.rs:367-579 | decoding after encoding is the identity |
| TaggedCodec.SerializeUnion | macros/src/lib.rs:639-667 | one entry for a variant, an error for the catch-all |
| TaggedCodec.UnionAcceptsOneEntry | macros/src/lib.rs:827-860 | exactly the one-entry maps whose key is known and decodes, or is unknown with a catch-all declared, are accepted |
| TaggedCodec.UnionVersions | macros/src/lib.rs:744-860 | a reader gives back a variant it has, and the catch-all or an error for one it has not |
| StreamMerge.SelectUntilFirstEnds.constructor | backend/src/util.rs:33-46 | neither stream done, A asked first |
| StreamMerge.SelectUntilFirstEnds.Drain | backend/src/util.rs:78-93 | state and output of draining |
| StreamMerge.SelectUntilFirstEnds.AskA | backend/src/util.rs:95-104 | state and output of asking A |
| StreamMerge.SelectUntilFirstEnds.AskB | backend/src/util.rs:106-120 | state and output of asking B |
| StreamMerge.SelectUntilFirstEnds.Next | backend/src/util.rs:129-166 | state and output of one poll |
| StreamMerge.DeliveredInterleaves | backend/src/util.rs:78-166 | what was delivered after any number of polls is an order-preserving interleaving of what A and B gave, nothing lost or doubled |
| StreamMerge.NeverPolledAfterEnd | backend/src/util.rs:78-166 | an inner stream that ended is never polled again |
| StreamMerge.EndsOnlyWithA | backend/src/util.rs:78-166 | the output ends only after A has ended, with nothing ready from B |
| StreamMerge.EndIsPermanent | backend/src/util.rs:78-166 | once ended, every later poll ends |
| StreamMerge.Fair | backend/src/util.rs:59-166 | before A ends, any two consecutive polls reach A |
| StreamMerge.PendingRegistersBoth | backend/src/util.rs:129-166 | a pending poll before A ends has asked both streams that are still open |
| StreamMerge.EndOfAIsReached | backend/src/util.rs:129-166 | a finite A is driven to its end |
| StreamMerge.DrainEnds | backend/src/util.rs:78-93 | after A has ended, the output ends at the first poll at which B has nothing ready |
| Storage.MemoryStorage.constructor | mls-assist/src/memory_provider.rs:69-75 | no records |
| Storage.MemoryStorage.WritePayload | mls-assist/src/memory_provider.rs:78-106 | the group records after a write |
| Storage.MemoryStorage.ReadPayload | mls-assist/src/memory_provider.rs:108-129 | the decoded payload, nothing, or a decoding error |
| Storage.MemoryStorage.DeletePayload | mls-assist/src/memory_provider.rs:131-158 | the group records after a delete, with an empty record dropped |
| Storage.MemoryStorage.Enqueue | mls-assist/src/memory_provider.rs:218-237 | the group records after queueing |
| Storage.MemoryStorage.QueuedProposals | mls-assist/src/memory_provider.rs:240-259 | the loop decodes the queue in iteration order, or fails if any entry does |
| Storage.MemoryStorage.Dequeue | mls-assist/src/memory_provider.rs:338-358 | the group records after removing a proposal |
| Storage.MemoryStorage.ClearQueue | mls-assist/src/memory_provider.rs:361-377 | the group records after clearing the queue |
| Storage.StepRefines | mls-assist/src/memory_provider.rs:78-377 | every operation on group records is the operation on independent maps they stand for |
| Storage.RunRefines | mls-assist/src/memory_provider.rs:44-377 | after any operations the records stand for the plain maps, and none is all empty |
| Storage.ReadsAgree | mls-assist/src/memory_provider.rs:108-129 | after any operations a read returns what the plain map holds |
| Storage.RecordIff | mls-assist/src/memory_provider.rs:44-377 | after any operations a group has a record exactly if some payload or proposal of it is stored |
| Storage.QueuesAgree | mls-assist/src/memory_provider.rs:240-259 | after any operations listing a queue returns every proposal of the group once and nothing else, in any iteration order |
| Storage.ReadAfterWriteIff | mls-assist/src/memory_provider.rs:116-125 | a written payload reads back exactly when its encoding is not empty |
| Storage.TersePayloadReadsAsMissing | mls-assist/src/memory_provider.rs:116-125 | a lossless codec under which a payload just written reads back as missing |
| StorageWire.PairsRoundTrip | mls-assist/src/memory_provider.rs:563-589 | a map written as pairs in any order collects to the same map |
| StorageWire.DeserializeRestores | mls-assist/src/memory_provider.rs:394-456 | reading back what was written restores an equal storage for any iteration order of every map |
| Padme.LogRange | common/src/padme.rs:13-15 | the leading-zeros expression is the floor of the binary logarithm, and 0 for 0 |
| Padme.PadsToMultiple | common/src/padme.rs:12-19 | the padded length is less than one rounding unit above the length and a multiple of that unit |
| Padme.PadsToLeastMultiple | common/src/padme.rs:12-19 | with e the exponent of the length and f that of e, the padded length is the least multiple of 2^(e - f - 1) not below the length |
| Padme.TinyLengthsAreFixed | common/src/padme.rs:12-19 | every length from 2 on has these exponents; 0 and 1 are not padded |
| Padme.FewPaddedLengths | common/src/padme.rs:12-19 | the lengths between two powers of two have at most 2^(f + 1) + 1 padded values between them |
| Padme.KnownValues | common/src/padme.rs:12-19 | 9, 100, 129 and 1000 are padded to 10, 104, 144 and 1024 |
| Padme.Monotone | common/src/padme.rs:12-19 | longer contents never get shorter padded lengths |
| Padme.Idempotent | common/src/padme.rs:12-19 | a padded length is padded to itself |
| Padme.PowersAreFixed | common/src/padme.rs:12-19 | powers of two are not padded |
| Padme.PaddingIsSmall | common/src/padme.rs:21-26 | padding times the bit length stays below the length |
| Padme.PaddingIsBelowTwelvePercent | common/src/padme.rs:21-26 | padding is never above 12 percent |
| Padme.PadsUpwardsIff | common/src/padme.rs:18 | the padded length is at least the length exactly when the 64-bit addition does not overflow; otherwise it is 0 |
| Padme.FitsIff | common/src/padme.rs:17-18 | the addition overflows exactly for the top 2^57 - 1 lengths |

## Left out

- Partial failure of the two-step merges and deletes of a combined group: it depends on storage behaviour that is not shown; storage errors, serialization errors and error payloads are left out throughout.
- `StagedApqWelcome`: it stages the T welcome without deriving the key itself; the joiner theorems are about `new_from_welcome`.
- ApqCommit.FinalizedIsAcceptedIff: the builder's T-only proposals are modelled as pre-shared keys only, and the stored-proposal queue as empty; other T-only proposals would change the T dictionary or tree alone.
- ApqCommit.FinalizeCommit: the same limits hold, and the Welcome is modelled in `ApqJoin` while the group info is left out.
- ApqJoin.BuildExternal: the proposal pairs taken along are Removes; ratchet trees, lifetimes and additional authenticated data are left out.
- ApqSystem.RunKeepsAgreement: T-only rounds are those that keep the component, the membership and the committer's user; `StepLinkedIff` and `StepLockstepIff` say exactly what others do to the two groups. Updates by reference appear in `ApqRuns` only, because the builder's proposal queue is modelled as empty.
- ApqSystem.TOnlyKeepsAgreement: the same restriction on T-only rounds.
- SelfRemove proposals, public-group processing (which does the same checks without keys), capabilities and required-capabilities lists, leaf extensions, random nonces of pre-shared key ids, 64-bit epoch overflow.
- MessageTimeline.WindowStaysContiguous: store queries are assumed exact on a fixed timeline; the connection-chat flag is passed through as absent, store notifications and failed queries are left out.
- Commands, sinks, revisions sent to subscribers and the capacity hint of the message list.
- MarkAsRead.NoLostMark: cancelled calls and the contents of read receipts and notifications are left out; the debounce is the moment the waiting call is allowed to proceed.
- ProtoWire.SkipReads: the decoder is modelled from the wire format; buffers are byte sequences, not reference-counted slices.
- MarkdownParser.ParseItems: list items and table cells are read by one method that differs in where it stops, as the two functions do.
- Markdown.CollectLinks: byte offsets are unbounded numbers; the 32-bit offsets of texts of four gigabytes and more are left out.
- TaggedCodec.DeserializeMap: the self-describing format underneath is a list of key and payload pairs; skipping a malformed unknown payload is left out.
- Past group states and group infos of the storage as operations: plain inserts, lookups and removals (they are part of the serialization theorem). Locks are left out.
- `FusedStream::is_terminated`, wakers and pinning of the stream combinator.
- Network, database, metrics and push code, platform glue, build tooling and the remaining UI state holders: they would only add easy members.
