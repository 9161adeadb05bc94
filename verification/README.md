# Enjoy: transcript segments, chat membership and transcription adoption

A Dafny model of three parts of the Enjoy language-learning app.

- **The media player controls.** The React effects and handlers that keep the transcript timeline, the playback cursor and the waveform's regions in step. They cover:
  - resolving the current segment from the playback time;
  - stepping to the previous or next segment;
  - the single segment region;
  - clamping custom regions;
  - writing edited segment bounds into a draft;
  - the play-mode policy when playback leaves a region;
  - cancel and save.

  The component's state and the regions plugin's collection are the fields of one class, `PlayerControls`. Each effect or handler is one method, and each method's contract states its whole new state. The handlers that rebuild regions or write the draft are proved against transition functions on a `PlayerState` value: `updateSegmentRegion`, `region-updated`, `region-created` and the selection toggle. Lemmas state what those transitions guarantee. The other handlers state their new state directly, as field updates of the old state. Among these are prev/next, time update, play-mode policy, finish, replay, cancel and save. Where such an update computes something, it goes through a pure rule proved on its own, such as `Neighbour` or `ResolveIndex`.

  React runs an effect after a render in which one of its dependencies changed. Two methods include the effect their state change triggers:
  - `ToggleEditing` runs the `[editingRegion]` effect, which refreshes the segment region.
  - `ToggleSelectingRegion` re-runs the listeners' effect.

  Every other handler changes its own state only. The caller then runs the effect methods whose dependencies changed:
  - `OnPrev`, `OnNext` and `OnTimeUpdate` change the segment index. `OnSegmentChanged` and `RerunListeners` follow.
  - `SetPlayMode` changes the play mode. `RerunListeners` follows.
  - `Cancel` switches editing off. `UpdateSegmentRegion` follows, for the `[editingRegion]` effect.
  - `Save` switches editing off and changes the result. `UpdateSegmentRegion`, `OnSegmentChanged` and `RerunListeners` follow.
  - A change of the active region is followed by `OnActiveRegionChanged`.
  - A change of the play mode, the active region or the current time is followed by `StayInActiveRegion`.

  `RerunListeners` is the listeners' effect re-run on any of its dependencies: play mode, plugin, transcription, segment index and selection.
- **The chats IPC handler.** `findAll`'s query construction, and `create`, `update` and `destroy` over the `chats` and `chat_members` tables. The member reconciliation of `update` is proved to be a closed form. From that form follow:
  - which rows survive;
  - that User members are never destroyed;
  - that every listed user ends up with a row;
  - that primary keys stay unique.
- **The transcriptions hook.** It covers:
  - flattening the aligner's timeline one level, to sentences and words;
  - choosing a transcript from the web API by model;
  - the guards around finding or creating the record and generating a transcript;
  - capping reported progress.

Region ids carry their kind in a prefix (`segment-region-<i>`, `word-region-...`, `custom-region-<stamp>`). Here the id is a tagged value, `Regions.RegionId`. Times are only compared and copied, so they are `real`. Generated UUIDs are counters.

Files:
- `wrappers.dfy`: `Option` and `Result`.
- `seq_facts.dfy`: generic sequence lemmas.
- `alignment.dfy`: the timeline entry and the alignment result.
- `segment_timeline.dfy`: segment lookup, prev/next and draft retiming.
- `regions.dfy`: the region collection as a value.
- `media_player_controls.dfy`: the player controls.
- `chat_members.dfy`: the member table and reconciliation.
- `chats_handler.dfy`: the handler class.
- `use_transcriptions.dfy`: the hook.

## Model

| member | source | states |
|---|---|---|
| SegmentTimeline.FindIndex | enjoy/src/renderer/components/medias/media-player-controls.tsx:324-326 | Returns -1 or an index. An index's segment contains `t` in `[startTime, endTime)`. No earlier segment contains it, and with -1 none does. |
| SegmentTimeline.ResolveIndex | enjoy/src/renderer/components/medias/media-player-controls.tsx:320-333 | The index stays unchanged in single and loop mode and without an aligned result. Any change lands on the first segment containing `t`. In all mode, when some segment contains `t`, the result is the first segment that contains it, even when the current one also does. |
| SegmentTimeline.ResolveIdempotent | enjoy/src/renderer/components/medias/media-player-controls.tsx:320-333 | A second time update with the same time and mode leaves the index where the first put it. |
| SegmentTimeline.Neighbour | enjoy/src/renderer/components/medias/media-player-controls.tsx:74-88 | Prev and next move by exactly one. They move if and only if there is a player, a result and a timeline entry at the target. Otherwise the index is unchanged. |
| SegmentTimeline.NeighbourStaysInBounds | enjoy/src/renderer/components/medias/media-player-controls.tsx:74-88 | An index inside the timeline stays inside it under prev and next. |
| SegmentTimeline.RetimedAsWritten | enjoy/src/renderer/components/medias/media-player-controls.tsx:240-259 | The draft edit as written keeps the timeline's length and never touches the entry after the edited one. |
| SegmentTimeline.RetimedAsWrittenAt | enjoy/src/renderer/components/medias/media-player-controls.tsx:240-259 | The edit as written, entry by entry. The edited entry takes the region's bounds, and the previous entry ends no later than the region's start. Every other entry, the next one included, is unchanged. |
| SegmentTimeline.Retimed | enjoy/src/renderer/components/medias/media-player-controls.tsx:245-259 | Definition: the corrected edit, the as-written edit plus the next-entry clamp the comment describes. |
| SegmentTimeline.AsWrittenOrderedIff | enjoy/src/renderer/components/medias/media-player-controls.tsx:240-259 | On a timeline without overlapping neighbours, the edit as written keeps it free of them if and only if the region ends no later than the next entry starts, or the edited entry is the last. |
| SegmentTimeline.AsWrittenOverlapsNext | enjoy/src/renderer/components/medias/media-player-controls.tsx:253-259 | Counterexample: an ordered three-entry timeline whose middle entry is stretched past the next start ends up overlapping. |
| SegmentTimeline.RetimedAt | enjoy/src/renderer/components/medias/media-player-controls.tsx:240-259 | The corrected edit, entry by entry. The edited entry takes the region's bounds. The previous entry ends no later than the region's start, and the next starts no earlier than its end. Every other entry is unchanged. |
| SegmentTimeline.RetimedKeepsOrder | enjoy/src/renderer/components/medias/media-player-controls.tsx:245-259 | The corrected edit keeps a timeline without overlapping neighbours free of them, for any region bounds. |
| Regions.Without | enjoy/src/renderer/components/medias/media-player-controls.tsx:120-123 | Removing one kind of region never grows the collection. |
| Regions.WithoutMembers | enjoy/src/renderer/components/medias/media-player-controls.tsx:120-123 | After removing a kind, exactly the regions of the other kinds remain. |
| Regions.CountAppend | enjoy/src/renderer/components/medias/media-player-controls.tsx:125-133 | Counting regions of a kind distributes over appending collections. |
| Regions.CountWithout | enjoy/src/renderer/components/medias/media-player-controls.tsx:152-155 | After removing a kind, none of it is left and every other kind's count is unchanged. |
| Regions.Replace | enjoy/src/renderer/components/medias/media-player-controls.tsx:231-234 | Moving a region replaces, index by index, every region with its id and leaves the rest. |
| Regions.ReplaceMembers | enjoy/src/renderer/components/medias/media-player-controls.tsx:231-234 | After a move, every region is the moved one or an unchanged region with another id. |
| Regions.CountReplace | enjoy/src/renderer/components/medias/media-player-controls.tsx:231-234 | Moving a region never changes how many regions of a kind exist. |
| Regions.Follow | enjoy/src/renderer/components/medias/media-player-controls.tsx:231-234 | The active region follows a move of the region with its id. Otherwise it is unchanged and never disappears. |
| Regions.FindRegion | enjoy/src/renderer/components/medias/media-player-controls.tsx:224-226 | The lookup by id returns the first region of the collection with that id. It returns nothing if and only if no region has the id. |
| Regions.FindRegionReplace | enjoy/src/renderer/components/medias/media-player-controls.tsx:222-226 | Moving a region leaves the lookup of any other id unchanged, so the segment region a custom region is clamped into is the one before the move. |
| Regions.FirstOfKind | enjoy/src/renderer/components/medias/media-player-controls.tsx:211 | The lookup by prefix returns the first region of that kind. It returns nothing if and only if there is none. |
| Regions.ClampToSegment | enjoy/src/renderer/components/medias/media-player-controls.tsx:229-235 | A custom region's start is raised to the segment region's start and its end lowered to the segment region's end. Bounds already inside are kept, and so are its id and options. |
| Regions.MaterializeSingleSegmentRegion | enjoy/src/renderer/components/medias/media-player-controls.tsx:112-133 | Afterwards exactly one segment region exists: the one for the index, with the segment's bounds, `drag` off and `resize` equal to `editingRegion`. |
| Regions.MaterializeWordRegions | enjoy/src/renderer/components/medias/media-player-controls.tsx:135-156 | An active word region inside the new segment region stays active and all word regions stay. Otherwise no word region is left and the segment region is active. Custom regions are untouched. |
| Regions.Materialize | enjoy/src/renderer/components/medias/media-player-controls.tsx:112-156 | Definition: the collection and active region `updateSegmentRegion` leaves, as a value. |
| MediaPlayerControls.SegmentRegionUpdatedShape | enjoy/src/renderer/components/medias/media-player-controls.tsx:95-158 | `updateSegmentRegion` is a no-op without player or plugin, while editing a word region, or without a current segment. Otherwise it yields the single-segment-region and word-region outcomes above, and only regions and the active region change. |
| MediaPlayerControls.SegmentRegionUpdatedConsistent | enjoy/src/renderer/components/medias/media-player-controls.tsx:95-158 | `updateSegmentRegion` preserves the state invariant: at most one segment region, and a draft as long as the result it copies. |
| MediaPlayerControls.SegmentRegionUpdated | enjoy/src/renderer/components/medias/media-player-controls.tsx:95-158 | Definition: `updateSegmentRegion` as a state transition. |
| MediaPlayerControls.Moved | enjoy/src/renderer/components/medias/media-player-controls.tsx:222 | Definition: the plugin's move of region `r` before the listener runs, with the active region following it. |
| MediaPlayerControls.EditedRegion | enjoy/src/renderer/components/medias/media-player-controls.tsx:223-238 | Definition: the bounds the listener writes, or none when it returns or throws first. |
| MediaPlayerControls.WithDraft | enjoy/src/renderer/components/medias/media-player-controls.tsx:240-261 | Definition: the draft as a retimed copy of the persisted result. |
| MediaPlayerControls.RegionUpdated | enjoy/src/renderer/components/medias/media-player-controls.tsx:222-262 | Definition: the `region-updated` event as a state transition, the move then the listener. |
| MediaPlayerControls.Listened | enjoy/src/renderer/components/medias/media-player-controls.tsx:223-262 | Definition: the `region-updated` listener as a state transition. |
| MediaPlayerControls.RegionUpdatedDraft | enjoy/src/renderer/components/medias/media-player-controls.tsx:223-262 | A region edit never changes the persisted result. Regions that are neither custom nor the current segment region leave the draft alone. So does a custom region when no current segment region exists, where the listener throws. An edit of the current segment region makes the draft the result retimed as written with the region's bounds. An edit of a custom region does the same with the custom region clamped into the segment region. The next entry is never clamped. Any draft change is such a retiming at the current index. |
| MediaPlayerControls.ListenedDraft | enjoy/src/renderer/components/medias/media-player-controls.tsx:223-262 | The same as `RegionUpdatedDraft`, stated for the listener on the state after the plugin's move. |
| MediaPlayerControls.RegionUpdatedClampsCustom | enjoy/src/renderer/components/medias/media-player-controls.tsx:228-235 | After an edit of a custom region, that region lies inside the segment region, both in the collection and as the active region. |
| MediaPlayerControls.RegionUpdatedCount | enjoy/src/renderer/components/medias/media-player-controls.tsx:223-238 | A region edit never adds or removes regions of any kind. |
| MediaPlayerControls.RegionUpdatedConsistent | enjoy/src/renderer/components/medias/media-player-controls.tsx:223-262 | A region edit preserves the state invariant: at most one segment region, and a draft as long as the result it copies. |
| MediaPlayerControls.RegionUpdatedOrdered | enjoy/src/renderer/components/medias/media-player-controls.tsx:223-262 | Take a persisted timeline without overlapping neighbours. A draft a region edit writes from it is again free of overlaps if and only if the written bounds end no later than the next entry starts. Nothing clamps that entry. |
| MediaPlayerControls.RegionCreatedEffect | enjoy/src/renderer/components/medias/media-player-controls.tsx:264-269 | A created region is appended and its kind's count grows by one. Only a custom region, and only with the listeners registered, ends drag selection and becomes active. Transcript and draft are untouched. |
| MediaPlayerControls.RegionCreatedConsistent | enjoy/src/renderer/components/medias/media-player-controls.tsx:264-269 | Creating a region that is not a segment region preserves the state invariant. |
| MediaPlayerControls.RegionCreated | enjoy/src/renderer/components/medias/media-player-controls.tsx:264-269 | Definition: the `region-created` event as a state transition. |
| MediaPlayerControls.SelectionToggled | enjoy/src/renderer/components/medias/media-player-controls.tsx:186-214 | Definition: the select-region button followed by the listeners' effect. |
| MediaPlayerControls.ListenersEffect | enjoy/src/renderer/components/medias/media-player-controls.tsx:186-293 | Definition: the listeners' effect re-run: cleanup, capture of the `finish` listener's region, then the selection branch. |
| MediaPlayerControls.ListenersRegistered | enjoy/src/renderer/components/medias/media-player-controls.tsx:186-214 | Definition: the selection branch of the listeners' effect. |
| MediaPlayerControls.SelectionToggledEffect | enjoy/src/renderer/components/medias/media-player-controls.tsx:186-221 | Selecting enables drag selection if and only if player, plugin and result exist. Ending a selection keeps exactly the non-custom regions. It keeps a non-custom active region, and otherwise activates the first segment region left, or nothing if and only if there is none. The `finish` listener then replays the region active before the toggle, in loop mode only. |
| MediaPlayerControls.SelectionToggledConsistent | enjoy/src/renderer/components/medias/media-player-controls.tsx:186-214 | Toggling selection preserves the state invariant. |
| MediaPlayerControls.RemoveKind | enjoy/src/renderer/components/medias/media-player-controls.tsx:120-123 | The removal loop over the collection leaves exactly `Without(all, k)`. |
| MediaPlayerControls.MaterializeRegions | enjoy/src/renderer/components/medias/media-player-controls.tsx:120-156 | The region edits of `updateSegmentRegion`, done one removal at a time, yield `Materialize`. |
| MediaPlayerControls.EndSelection | enjoy/src/renderer/components/medias/media-player-controls.tsx:203-214 | Ending a selection removes the custom regions. A missing or custom active region falls back to the first segment region. |
| MediaPlayerControls.PlayerControls.constructor | enjoy/src/renderer/components/medias/media-player-controls.tsx:59-61 | The controls start in single mode, not selecting, without regions, draft or active region, and satisfy the invariant. |
| MediaPlayerControls.PlayerControls.OnPrev | enjoy/src/renderer/components/medias/media-player-controls.tsx:74-80 | Only the index changes, to `Neighbour(.., -1)`. The invariant is kept. |
| MediaPlayerControls.PlayerControls.OnNext | enjoy/src/renderer/components/medias/media-player-controls.tsx:82-88 | Only the index changes, to `Neighbour(.., +1)`. The invariant is kept. |
| MediaPlayerControls.PlayerControls.OnTimeUpdate | enjoy/src/renderer/components/medias/media-player-controls.tsx:320-333 | The time is recorded and the index becomes `ResolveIndex` of the old state. Nothing else changes. |
| MediaPlayerControls.PlayerControls.UpdateSegmentRegion | enjoy/src/renderer/components/medias/media-player-controls.tsx:95-158 | The new state is `SegmentRegionUpdated` of the old one. The invariant is kept. |
| MediaPlayerControls.PlayerControls.OnSegmentChanged | enjoy/src/renderer/components/medias/media-player-controls.tsx:166-172 | With the plugin, editing is switched off and the segment region is refreshed. Without it, nothing changes. |
| MediaPlayerControls.PlayerControls.ToggleEditing | enjoy/src/renderer/components/medias/media-player-controls.tsx:177-179 | `editingRegion` flips and the segment region is refreshed with the new `resize`. |
| MediaPlayerControls.PlayerControls.OnRegionUpdated | enjoy/src/renderer/components/medias/media-player-controls.tsx:223-262 | The new state is `RegionUpdated` of the old one: the plugin's move, then the listener. The invariant is kept. |
| MediaPlayerControls.PlayerControls.RegionUpdatedListener | enjoy/src/renderer/components/medias/media-player-controls.tsx:223-262 | The listener's clamp and draft write take the state to `Listened` of it, whose draft is the edit as written. |
| MediaPlayerControls.PlayerControls.WriteDraft | enjoy/src/renderer/components/medias/media-player-controls.tsx:240-261 | The draft becomes the persisted result retimed at the current index by the edit as written: the previous entry is clamped and the next is not. With no result or no entry at that index, nothing changes. |
| MediaPlayerControls.PlayerControls.OnRegionCreated | enjoy/src/renderer/components/medias/media-player-controls.tsx:264-269 | The new state is `RegionCreated` of the old one. The invariant is kept. |
| MediaPlayerControls.PlayerControls.ToggleSelectingRegion | enjoy/src/renderer/components/medias/media-player-controls.tsx:186-214 | The new state is `SelectionToggled` of the old one. The invariant is kept. |
| MediaPlayerControls.PlayerControls.RerunListeners | enjoy/src/renderer/components/medias/media-player-controls.tsx:186-214 | Re-running the listeners' effect after any of its dependencies changed yields `ListenersEffect` of the old state. |
| MediaPlayerControls.PlayerControls.RegisterListeners | enjoy/src/renderer/components/medias/media-player-controls.tsx:190-214 | After the cleanup, the selection branch takes the state to `ListenersRegistered` of it. |
| MediaPlayerControls.PlayerControls.OnActiveRegionChanged | enjoy/src/renderer/components/medias/media-player-controls.tsx:388-400 | A custom active region removes every word region. Any other active region ends selecting. Without plugin or active region, nothing changes. |
| MediaPlayerControls.PlayerControls.OnRegionOut | enjoy/src/renderer/components/medias/media-player-controls.tsx:271-280 | Loop mode pauses and schedules a replay of the region. Single mode only pauses. All mode does nothing. |
| MediaPlayerControls.PlayerControls.OnReplayTimer | enjoy/src/renderer/components/medias/media-player-controls.tsx:274-276 | A scheduled replay plays the region from its start. |
| MediaPlayerControls.PlayerControls.OnFinish | enjoy/src/renderer/components/medias/media-player-controls.tsx:217-221 | Only a `finish` listener registered in loop mode replays, and it replays the region that was active when the listeners' effect last ran, not the one active now. The active region is not among the effect's dependencies. |
| MediaPlayerControls.PlayerControls.StayInActiveRegion | enjoy/src/renderer/components/medias/media-player-controls.tsx:338-349 | While paused in single or loop mode, a cursor outside the active region moves to its start, so the cursor ends inside the region. |
| MediaPlayerControls.PlayerControls.SelectFirstSegment | enjoy/src/renderer/components/medias/media-player-controls.tsx:298-309 | Once decoded, with a player and an aligned result, the index becomes 0 and the cursor moves to the first segment's start. |
| MediaPlayerControls.PlayerControls.SetPlayMode | enjoy/src/renderer/components/medias/media-player-controls.tsx:459-473 | Only the play mode changes. |
| MediaPlayerControls.PlayerControls.PlayOrPause | enjoy/src/renderer/components/medias/media-player-controls.tsx:63-71 | With a player, playback toggles. Without one, nothing changes. |
| MediaPlayerControls.PlayerControls.Cancel | enjoy/src/renderer/components/medias/media-player-controls.tsx:562-565 | Editing ends and the draft is dropped. Nothing is persisted. |
| MediaPlayerControls.PlayerControls.Save | enjoy/src/renderer/components/medias/media-player-controls.tsx:574-585 | Without a draft, nothing happens. A failed update keeps the draft and editing. Only a resolved update clears them, and the draft becomes the result. |
| ChatMembers.IndexOfUserType | enjoy/src/main/db/handlers/chats-handler.ts:85 | Returns -1 or the first index holding a User entry. With -1 there is none. |
| ChatMembers.IndexOfUserId | enjoy/src/main/db/handlers/chats-handler.ts:134 | Returns -1 or the first index holding the user's entry. With -1 there is none. |
| ChatMembers.DefaultUser | enjoy/src/main/db/handlers/chats-handler.ts:86-96 | Definition: the User member added when the request lists none. |
| ChatMembers.WithDefaultUser | enjoy/src/main/db/handlers/chats-handler.ts:85-97 | The list always has a User member. It equals the request's list if and only if that list had one. Otherwise the default User (profile, native language) is appended. |
| ChatMembers.CreatedRows | enjoy/src/main/db/handlers/chats-handler.ts:98-109 | `create` makes one row per entry, in the new chat, with consecutive keys. At least one row is a User member. |
| ChatMembers.NewRows | enjoy/src/main/db/handlers/chats-handler.ts:98-109 | Definition: the rows `ChatMember.create` adds, one per entry, with consecutive keys. |
| ChatMembers.MembersOf | enjoy/src/main/db/handlers/chats-handler.ts:132 | Definition: `chat.members`, the chat's rows in table order. |
| ChatMembers.MembersOfMembers | enjoy/src/main/db/handlers/chats-handler.ts:132 | A chat's members are exactly the table's rows with its id. |
| ChatMembers.RemoveIdMembers | enjoy/src/main/db/handlers/chats-handler.ts:135 | Destroying a member removes the row with its key and keeps every other row. |
| ChatMembers.PruneMembers | enjoy/src/main/db/handlers/chats-handler.ts:132-137 | The removal loop removes exactly the victims that are neither User members nor listed. |
| ChatMembers.Prune | enjoy/src/main/db/handlers/chats-handler.ts:131-137 | Definition: the table after the removal loop, as a value. |
| ChatMembers.FirstWithUser | enjoy/src/main/db/handlers/chats-handler.ts:141 | Returns the first row of the chat with that user, which decides the updated row when a user has several rows. It returns nothing if and only if there is none. |
| ChatMembers.Refreshed | enjoy/src/main/db/handlers/chats-handler.ts:140-144 | A row keeps its key, chat and user. If it changes, it was the target of a listed entry and carries that entry's type and configuration. |
| ChatMembers.LastIndexOfUserId | enjoy/src/main/db/handlers/chats-handler.ts:140-144 | The entry left in effect by a run of updates for a user is the last one with that user. No later entry has it. |
| ChatMembers.RefreshedStep | enjoy/src/main/db/handlers/chats-handler.ts:140-144 | One more entry refreshes exactly the row that entry's user targets. Every other row keeps its previous refresh. |
| ChatMembers.RefreshedOutside | enjoy/src/main/db/handlers/chats-handler.ts:141 | A row of another chat is never an update target, so it is left as it is. |
| ChatMembers.NewRowsMembers | enjoy/src/main/db/handlers/chats-handler.ts:145-156 | Created rows have distinct consecutive keys from the next free one and lie in the chat, each for one of the entries. |
| ChatMembers.UnmatchedMembers | enjoy/src/main/db/handlers/chats-handler.ts:141-156 | The entries that create rows are exactly those whose user has no row in the chat. |
| ChatMembers.RefreshedAll | enjoy/src/main/db/handlers/chats-handler.ts:140-144 | Definition: every row after the updates of the add-or-update loop. |
| ChatMembers.Unmatched | enjoy/src/main/db/handlers/chats-handler.ts:141-156 | Definition: the entries that create rows. |
| ChatMembers.Upserted | enjoy/src/main/db/handlers/chats-handler.ts:139-157 | Definition: the table after the add-or-update loop, as a value. |
| ChatMembers.UpsertedIs | enjoy/src/main/db/handlers/chats-handler.ts:140-157 | The add-or-update loop equals a closed form: each existing row refreshed in place, followed by one new row per unmatched entry, with fresh keys. |
| ChatMembers.UpdateIdRefreshes | enjoy/src/main/db/handlers/chats-handler.ts:143-144 | Updating the matched member refreshes that row and no other row, old or new. |
| ChatMembers.PrunedMembers | enjoy/src/main/db/handlers/chats-handler.ts:131-137 | After the removal loop, exactly the chat's non-User members whose user is unlisted are gone. |
| ChatMembers.ReconciledIs | enjoy/src/main/db/handlers/chats-handler.ts:131-157 | `update`'s member reconciliation equals the pruned rows refreshed, followed by the unmatched entries' new rows. |
| ChatMembers.Reconciled | enjoy/src/main/db/handlers/chats-handler.ts:131-157 | Definition: `update`'s member reconciliation as a closed form. |
| ChatMembers.ReconciledSurvivors | enjoy/src/main/db/handlers/chats-handler.ts:131-157 | A row survives, refreshed, exactly when it is not doomed. A doomed key is gone. Other chats' rows are untouched, and no row appears outside the chat. |
| ChatMembers.ReconciledValid | enjoy/src/main/db/handlers/chats-handler.ts:131-157 | Keys stay unique and below the next free key. |
| ChatMembers.ReconciledListed | enjoy/src/main/db/handlers/chats-handler.ts:140-157 | Every listed user has a row in the chat afterwards. |
| ChatMembers.ReconciledFresh | enjoy/src/main/db/handlers/chats-handler.ts:145-156 | Every row with a new key is in the chat, for a listed user who had no row there. |
| ChatMembers.ReconciledIncoming | enjoy/src/main/db/handlers/chats-handler.ts:131-157 | The three facts above together. |
| ChatMembers.ReconciledKeepsUsers | enjoy/src/main/db/handlers/chats-handler.ts:133 | `update` never destroys a User member of the chat. |
| Chats.AgentChatIds | enjoy/src/main/db/handlers/chats-handler.ts:31-38 | Definition: the chat ids of the Agent member rows with that user id |
| Chats.AgentChatIdsMembers | enjoy/src/main/db/handlers/chats-handler.ts:31-38 | A chat is among an agent's chats if and only if the agent is an Agent member of that chat. |
| Chats.WithSttEngine | enjoy/src/main/db/handlers/chats-handler.ts:77-81 | Definition: a chat without a speech-to-text engine takes the user's. |
| Chats.Edited | enjoy/src/main/db/handlers/chats-handler.ts:129 | Definition: `chat.update(chatData)` on the chat row. |
| Chats.ChatsHandler.constructor | enjoy/src/main/db/handlers/chats-handler.ts:11 | The tables start empty and valid. |
| Chats.ChatsHandler.FindAllQuery | enjoy/src/main/db/handlers/chats-handler.ts:19-49 | Missing options throw, and present options always yield a query. A query adds `name LIKE %query%`, and an agent restricts ids to its chats. The caller's other conditions are kept. The order defaults to `updatedAt DESC` unless given, and limit and offset pass through. |
| Chats.ChatsHandler.Create | enjoy/src/main/db/handlers/chats-handler.ts:70-114 | An empty member list throws `membersRequired` and a missing configuration throws; neither changes anything. Otherwise: one new chat with the user's STT engine if none was given, plus the rows of `WithDefaultUser` with fresh keys. |
| Chats.ChatsHandler.Update | enjoy/src/main/db/handlers/chats-handler.ts:116-174 | An empty list throws `membersRequired`, and an unknown id then throws `notFound`, both without changes. Otherwise the chat is edited and the member table becomes `Reconciled`. |
| Chats.ChatsHandler.AddMembers | enjoy/src/main/db/handlers/chats-handler.ts:98-109 | The creation loop appends `NewRows` with consecutive keys and keeps the table valid. |
| Chats.ChatsHandler.RemoveUnlisted | enjoy/src/main/db/handlers/chats-handler.ts:131-137 | The removal loop leaves `Prune` of the table. |
| Chats.ChatsHandler.UpsertMembers | enjoy/src/main/db/handlers/chats-handler.ts:139-157 | The add-or-update loop leaves `Upserted` of the table. |
| Chats.ChatsHandler.Destroy | enjoy/src/main/db/handlers/chats-handler.ts:176-187 | An unknown id throws `notFound` without changes. Otherwise the chat row is removed and returned. |
| Transcriptions.FlattenTimeline | enjoy/src/renderer/hooks/use-transcriptions.tsx:60-71 | Without an alignment result the timeline is empty. Otherwise the nested loops build the one-level flattening. |
| Transcriptions.Expand | enjoy/src/renderer/hooks/use-transcriptions.tsx:62-70 | Definition: one entry's block, the entry itself for a sentence and its children otherwise. |
| Transcriptions.Flattened | enjoy/src/renderer/hooks/use-transcriptions.tsx:60-71 | Definition: the one-level flattening, as a value. |
| Transcriptions.FlattenedAppend | enjoy/src/renderer/hooks/use-transcriptions.tsx:62-70 | Flattening distributes over concatenation. |
| Transcriptions.FlattenedLength | enjoy/src/renderer/hooks/use-transcriptions.tsx:60-71 | The flattened length is one per sentence entry plus the number of children of every other entry. |
| Transcriptions.FlattenedSentences | enjoy/src/renderer/hooks/use-transcriptions.tsx:63-64 | A timeline of sentences is its own flattening. |
| Transcriptions.FlattenedAt | enjoy/src/renderer/hooks/use-transcriptions.tsx:62-70 | Each entry contributes its block at its place. A sentence is copied as is; any other entry is replaced by its children, which are not examined. |
| Transcriptions.FlattenedKeepsSentenceOrder | enjoy/src/renderer/hooks/use-transcriptions.tsx:62-64 | Sentences keep their relative order and are copied unchanged. |
| Transcriptions.FirstAllowed | enjoy/src/renderer/hooks/use-transcriptions.tsx:98-100 | Returns the first transcript whose model is allowed. It returns nothing if and only if none is. |
| Transcriptions.SelectRemote | enjoy/src/renderer/hooks/use-transcriptions.tsx:98-108 | "Transcription not found" if and only if no allowed model exists; a missing result throws; otherwise "not aligned" is rejected. Success is exactly the first allowed transcript when it is aligned. |
| Transcriptions.Normalized | enjoy/src/renderer/hooks/use-transcriptions.tsx:36-38 | A result without a transcript is dropped, and a record without a result stays without one. An aligned result is kept. Nothing else changes. |
| Transcriptions.NormalizedIdempotent | enjoy/src/renderer/hooks/use-transcriptions.tsx:36-38 | Normalising twice is normalising once. |
| Transcriptions.AfterFindOrCreate | enjoy/src/renderer/hooks/use-transcriptions.tsx:26-44 | Definition: the held transcription after `findOrCreateTranscription`. |
| Transcriptions.TranscriptionsHook.constructor | enjoy/src/renderer/hooks/use-transcriptions.tsx:15-18 | The hook starts with no transcription, not transcribing, at zero progress. |
| Transcriptions.TranscriptionsHook.FindOrCreate | enjoy/src/renderer/hooks/use-transcriptions.tsx:26-44 | A no-op without media, with a transcription held, or on a failed fetch. A fetched result is kept only when aligned. |
| Transcriptions.TranscriptionsHook.StartGenerate | enjoy/src/renderer/hooks/use-transcriptions.tsx:46-53 | A no-op while transcribing. Otherwise a missing transcription is found or created, and transcribing starts at progress 0. |
| Transcriptions.TranscriptionsHook.CompleteGenerate | enjoy/src/renderer/hooks/use-transcriptions.tsx:54-86 | Transcribing ends. The finished update carries the flattened timeline and the transcript, and is sent exactly when media, outcome, held transcription and alignment exist. |
| Transcriptions.TranscriptionsHook.FindFromWebApi | enjoy/src/renderer/hooks/use-transcriptions.tsx:89-116 | After finding or creating the record, the selection's rejection is passed on. Otherwise a finished update with the remote result, engine and model is sent. |
| Transcriptions.TranscriptionsHook.OnTransactionUpdate | enjoy/src/renderer/hooks/use-transcriptions.tsx:20-25 | Only an update of a Transcription record replaces the held transcription. |
| Transcriptions.TranscriptionsHook.ReportProgress | enjoy/src/renderer/hooks/use-transcriptions.tsx:146-148 | Progress is the reported value capped at 100. |

## Left out

- JSX, tooltips, hotkeys, scroll and zoom, and the segment label span are not modelled. They render UI and hold no behaviour the transitions depend on.
- Debouncing is not modelled, and neither is the 500 ms delay before a loop replay. A replay is a pending flag that `OnReplayTimer` consumes, and debounced calls happen at once.
- Seeking is modelled as setting the current time. The `floor(t / duration * 1e8) / 1e8` fraction is floating-point arithmetic and is not modelled.
- The wavesurfer instance and its regions plugin are represented only by presence flags, the region collection, drag selection and the playing flag. A region's identity, a JavaScript object reference, is its id.
- MediaPlayerControls.PlayerControls.Save: the persisted result taking the draft's value is the record update arriving through the database listener. It is folded into the save here.
- Chats.ChatsHandler.Update: Sequelize transactions, `reload` and `toJSON` are not modelled. The chat model's own file is not part of this model, so `chat.members` is taken to hold the chat's rows in table order.
- Chats.ChatsHandler.FindAllQuery: only `where`, `order`, `limit` and `offset` of the options are represented. Running the query and the emptiness check on its result are not modelled.
- Chats.ChatsHandler.Create: the user settings it reads (STT engine, profile, native language) are a parameter.
- Chats.ChatsHandler.Destroy: whether destroying a chat also removes its `chat_members` rows is decided by the Chat model's associations. That file is not part of this model. The member rows are taken to survive, and `Destroy` leaves the member table unchanged.
- MediaPlayerControls.PlayerControls.OnFinish: the region the `finish` listener captured may have been removed from the collection since. Playing it is modelled as playing from its start. What the regions plugin does for a removed region is not part of this model.
- Transcriptions.TranscriptionsHook.CompleteGenerate: every entry of the aligner's timeline that is not a sentence is taken to carry a sub-timeline. An entry without one makes the flattening throw, and then no update is sent. `TimelineEntry.timeline` is a plain sequence, so the model cannot express that case.
- `findOne` and the IPC registration are not modelled; they forward to the ORM.
- Transcriptions.TranscriptionsHook.CompleteGenerate: a rejected `EnjoyApp.transcriptions.update` call is not modelled. The update counts as sent when requested.
- Transcriptions.TranscriptionsHook.FindFromWebApi: a rejected `EnjoyApp.transcriptions.update` call is not modelled, in the same way.
- `findOrGenerateTranscription` and the effect that registers the listeners are not modelled. They only sequence the methods above around asynchronous results and console output.
- Toasts are not modelled, and neither is whether the speech-to-text service is local. Both are side channels with no state.

## Findings

| source | as written | input that shows it | evidently intended | confidence | as-written member | corrected member |
|---|---|---|---|---|---|---|
| enjoy/src/renderer/components/medias/media-player-controls.tsx:253-259 | The next-segment clamp tests `currentSegmentIndex < draft.length - 1`. `draft` is the cloned result object and has no `length`, so the test is always false and the next segment is never clamped. | A timeline [0,2], [2,5], [5,9] whose middle segment region is dragged to [2, 6.5]. The draft's middle entry ends at 6.5 while the next one still starts at 5. | The comment's rule: the next segment starts no earlier than the current one ends. This means testing against `draft.timeline.length`. The player class follows the code as written; the intended rule is stated and proved on its own. | not executed | SegmentTimeline.AsWrittenOverlapsNext | SegmentTimeline.RetimedKeepsOrder |
